# Verified model of the lib_switch command interpreters

lib_switch is a switch program built from dynamically loaded modules. Its protocol modules take
text commands and turn them into calls of device drivers. This project models the parts of it that
decide what a command means, and proves what they do, for every input:

- **The filter command** (lib_flow.c, lib_flow_dbg.c). A line is cut into tokens; a first loop reads
  a command word, a device, a table and match fields whose order an automaton (`rqd_field`) checks;
  a second loop reads actions; then at most one device call is made. Values are stored as bytes in
  two arrays of 25 slots. `dump_flow` prints these bytes again.
- **The bridge commands** (lib_bridge.c). Five option loops without any order, a keyword dispatch
  with overlapping keywords, and command files that may load command files.
- **Registration and linking** (main.c, lib_asic.c, lib_flow_stub_main.c). Modules register in any
  order; a nested loop then fills the device tables that the commands index.

## How the model is built

| file | contents |
|---|---|
| CStrings.dfy | `strncmp`, `strstr(.., "=")`, `strsep`, and the conservation of text by the tokeniser |
| Numerals.dfy | `atoi`, `strtol`, `ether_aton`, `inet_pton`, `%d`, `%u`, `%x`, 16-bit storage, and their round trips |
| Keywords.dfy | chains of `strncmp` tests: longest match, and when their order matters |
| Files.dfy | `fgets` with a buffer of 4096, and files written line by line |
| FlowTypes.dfy | tuples and actions as 16-byte records; calls as far as a command line determines them |
| FilterSpec.dfy | the filter parser as an automaton over tokens |
| FilterGrammar.dfy | the language and the meaning of filter lines without the automaton, and their equivalence |
| FilterInvariant.dfy | the invariant of every reachable state of the match loop |
| Capacity.dfy | exactly when the two arrays are big enough |
| FilterLines.dfy | whole lines: which are accepted, rejected, or undefined, and the call they ask for |
| FilterWords.dfy | the words of a filter line by their text, and what their values store |
| LineMeaning.dfy | what an accepted line asks for, token by token |
| FilterRuns.dfy | the two loops of `fib_cmd_filter` over its local variables and arrays |
| FlowModules.dfy | the flow module: device table, filter command, command files |
| FlowDump.dfy, DumpUnique.dfy | `dump_flow`, and that its output can be read back |
| RoundTrip.dfy, ParsedFlows.dfy | canonical command text; exactly which flows the parser builds, and when their dump is determined |
| DumpReading.dfy | the lines of a dump, and the line on which each option is shown |
| CanonicalFiles.dfy, BridgeFiles.dfy | command files written from flow calls and from bridge calls, and the load command |
| BridgeSpec.dfy, BridgeText.dfy | the option parser of the bridge commands; canonical text of bridge calls |
| BridgeLoad.dfy, LoadEnds.dfy, BridgeModules.dfy | nested command files, when loading ends, and the bridge module |
| Devices.dfy, Linking.dfy | switches, devices, and the main module |
| EndToEnd.dfy | from the command line to the linked device and its dump |
| Findings.dfy | command lines on which the program misbehaves |

The imperative code is modelled by classes and methods with loops and arrays; each is proved against
a function of its inputs, and the lemmas are about these functions. Two conventions:

- *Undefined behaviour.* Where the C program has undefined behaviour the outcome of the specification
  is `Undefined` or `BrUndefined`. `UndefinedIff` and `BridgeLanguage` say exactly for which lines, in
  terms of their tokens; the methods require that it does not occur. So an accepted filter line stays
  inside both arrays.
- *Undetermined bytes.* The record arrays are not initialised, so a command determines only some
  leading bytes of each value. `Stored` lists these bytes, and `TupleHolds` and `ActionHolds` relate
  a record to them; nothing is assumed about the other bytes.

## Findings

- The guard of the filter option `dev` is one too wide: it lets `dev=flw_dev_cnt` pass
  (lib_flow.c:231; the bridge guard in lib_bridge.c:160 does not). The dispatch then calls through a
  slot that was never registered. `GuardTooWide` gives such a line for every device count;
  `DeviceLine` and `UndefinedIff` say exactly when this happens.
- `dl-dst` checks the result of `ether_aton` and `dl-src` does not (lib_flow.c:331, 375-385), so
  `filter add in-phy-port=0 in-port=0 dl-dst=0:0:0:0:0:0 dl-src=x` reads through a null pointer:
  `NullAddressLine`. `MatchFaultsIff` gives the exact condition.
- `in-phy-port` is never checked for order and starts a new chain (lib_flow.c:265-267), and nothing
  counts the slots. The match loop writes past the array of 25 tuples exactly at a field option in
  its place behind a correct prefix with 25 field options: `TuplesFitIff`. A correct line fits exactly
  with at most 25 field options, at most 25 out-port options, and no drop behind the 25th:
  `AcceptedFitsIff`. Up to two `in-phy-port` options always fit (`TwoChainsFit`); 26 never do
  (`PhyPortsOverrun`).
- `drop` is never delivered as an action (lib_flow.c:632-636): `DropIsInvisible`. It needs a slot all
  the same: `DropNeedsRoom`.
- A malformed IPv4 address is accepted and leaves the old bytes, reversed (lib_flow.c:438-451).
  What the device dumps is decided by the line exactly if every IPv4 option before the action word
  has a well-formed address: `DumpDeterminedIff`. `SpoiltAddressLine` is an accepted line for which
  it is not. An address at the end of a line of a command file is always malformed:
  `LineEndSpoilsAddress`.
- The dump shows IPv4 addresses back to front (`ShownAddress`), shows one byte of an action value
  (`LinesWithEqualDumps`), and names actions from a table that is not in the order of the enumeration:
  no action has its own name (`NoActionKeepsItsName`), and every port of a command line prints as
  "enqueue_queue" (`PortsPrintAsQueues`; lib_flow.h:63-103, lib_flow_dbg.c:39-67, 127-129).
- A bridge command without all of its options is accepted, and then passes variables that were never
  assigned (lib_bridge.c:131-193): `BridgeLanguage`, with the bare command word as the smallest case
  in `BareCommand`.
- A load line opens the file that it names exactly if the file exists, its name has at least four
  characters, and no newline follows it: `LoadOpensIff`, `LoadCalls`. A newline is taken as part of
  the name (lib_bridge.c:547, lib_flow.c:699), so in a command file only a line without its newline,
  like an unterminated last one, loads what it names: `NewlineHidesFile`. A shorter name is ignored
  without an error message (lib_bridge.c:540, lib_flow.c:692), also from the shell, which strips the
  newline: `ShortNameIgnored`.
- A bridge command file that reaches itself through load lines is loaded without end
  (lib_bridge.c:552-554): `LoadEndsIff`.
- The help text of the flow module lists `tp-src` before `tp-dst` and offers `dl-vlan` and many
  actions (lib_flow.c:99-155); the parser wants `tp-dst` first and knows only the fields and actions
  modelled here. The model follows the parser.

## Model

| member | source | states |
|---|---|---|
| CStrings.TokensConserve | lib_flow.c:182-183 | joining the tokens of any line with single spaces gives the line back, and no token holds a space |
| CStrings.TokensOfJoin | lib_flow.c:182-183 | tokenising the join of any non-empty list of space-free words gives the list back |
| CStrings.ConsumedIsPrefix | lib_flow.c:182-183 | the tokens taken so far, joined, are a prefix of the line, and the whole line once all are taken |
| CStrings.ValueOfIff | lib_flow.c:220-229 | an option has no value exactly if it has no =, and otherwise its value is all that follows the first one |
| CStrings.StrncmpMeaning | lib_bridge.c:143 | strncmp within a literal asks for a prefix, and with a longer count for the literal itself |
| Numerals.AtoiOfDec | lib_flow.c:229 | reading a printed integer gives the integer, whatever non-digit follows |
| Numerals.AtoiMeaning | lib_flow.c:229 | on every text: atoi skips white space, takes an optional sign and the digits, ignores what follows, and gives 0 without digits |
| Numerals.DigitValues | lib_flow.c:328 | the 16 digits of both cases with their values; no other character is a digit |
| Numerals.NotationLaws | lib_flow_dbg.c:98-101 | decimal and hexadecimal numerals digit by digit, most significant first |
| Numerals.StrtolOfHex | lib_flow.c:406-407 | reading a printed hexadecimal number gives the number, with and without 0x |
| Numerals.StrtolMeaning | lib_flow.c:406-407 | on every text with digits: white space, an optional sign or 0x, digits of either case, and anything else |
| Numerals.StoreShortReadUnsigned | lib_flow_dbg.c:97 | narrowing any integer to short, storing its two bytes and reading them unsigned is reduction modulo 65536 |
| Numerals.StoredBytes | lib_flow.c:278 | the first stored byte is the number modulo 256, the second its quotient by 256 modulo 256 |
| Numerals.EtherAtonOfText | lib_flow.c:328-347 | parsing six printed octets gives the octets |
| Numerals.EtherAtonIff | lib_flow.c:328-331 | the address parser accepts exactly six groups of one or two hex digits with colons between them, then anything after two digits and white space or the end after one |
| Numerals.InetPtonIff | lib_flow.c:438 | the address parser accepts exactly the canonical dotted quads, each with its four octets |
| Numerals.SeparateInjective | lib_flow_dbg.c:104-118 | equal address texts have equal octets |
| Keywords.LongestMatchIff | lib_bridge.c:563-588 | a chain of prefix tests picks the longest keyword on every input if and only if no keyword hides a later one |
| Keywords.ReorderingIff | lib_bridge.c:563-588 | another order of a non-hiding chain agrees with it on every input if and only if it hides no keyword either |
| Keywords.OrderIrrelevant | lib_flow.c:187-624 | over a prefix-free table every order of the tests finds the same entry, the only one that matches |
| FilterSpec.FilterTablePrefixFree | lib_flow.c:187-615 | none of the 18 keywords of the match loop starts with another one |
| FilterSpec.FilterOrderIrrelevant | lib_flow.c:187-624 | any reordering of the tests of the match loop classifies every token alike |
| FilterWords.CommandWords | lib_flow.c:187-209 | filter, add, del and dump are recognised by these prefixes, and no other |
| FilterWords.FieldWords | lib_flow.c:265-611 | each field keyword, by its text, fills the tuple of its name in the enumeration |
| FilterWords.UnknownWords | lib_flow.c:619-623 | a token is unknown exactly if it starts with none of the 18 keywords |
| FilterWords.DecodeMeaning | lib_flow.c:278-611 | what every value stores: numbers modulo 65536 low byte first, octets in order, IPv4 octets in reverse, and what a malformed address does |
| FilterGrammar.InChainsIff | lib_flow.c:265-596 | concatenations of non-empty chain prefixes are the lists in which every field starts the chain or follows its predecessor |
| FilterGrammar.MatchLanguage | lib_flow.c:183-626 | on token lists without an action word the match loop accepts exactly the grammar, and its final variables are the last command, the last dev and tbl, and the fields in order |
| FilterGrammar.ActionLanguage | lib_flow.c:628-661 | the action loop accepts exactly the lists of drop options and out-port options with a value, and delivers the out-port options, in order, reduced to 16 bits |
| FilterGrammar.DropIsInvisible | lib_flow.c:632-636 | inserting a drop option anywhere changes neither acceptance nor the delivered actions |
| FilterLines.LineLanguage | lib_flow.c:164-682 | all or nothing: a line is accepted exactly if it is in the grammar, has room in both arrays, and its device exists, and then asks for the one call it means, or for none without a command word |
| LineMeaning.PartsAtAction | lib_flow.c:615-618 | fields stand before the first token that starts with action, actions behind it |
| LineMeaning.TakenIff | lib_flow.c:187-624 | the match loop takes a token exactly if it starts with a keyword and has the value and range that this needs |
| LineMeaning.OnlyTaken | lib_flow.c:187-624 | an accepted line holds no other tokens, and no action word without a command |
| LineMeaning.CommandsLead | lib_flow.c:211-216 | an accepted line calls exactly if it has a command word, and every other word but filter stands behind one |
| LineMeaning.CommandWins | lib_flow.c:192-209 | the operation of the call is the last of add, del and dump |
| LineMeaning.DeviceWins | lib_flow.c:218-237 | the device is the last dev value, read by atoi and narrowed to 16 bits, or 0 |
| LineMeaning.TableWins | lib_flow.c:239-261 | the same for tbl |
| LineMeaning.FieldDelivered | lib_flow.c:265-625 | every field option fills the slot that its number among the fields gives, with the tuple of its name and the decoded value |
| LineMeaning.TuplesCounted | lib_flow.c:625 | there are as many tuples as field options |
| LineMeaning.FieldsInOrder | lib_flow.c:265-596 | the first field of an accepted line is in-phy-port, and behind a field stands its successor or in-phy-port |
| LineMeaning.PortDelivered | lib_flow.c:639-658 | every out-port option fills the slot that its number among them gives, as out_port with its value modulo 65536, low byte first |
| LineMeaning.ActionsCounted | lib_flow.c:628-659 | there are as many actions as out-port options, and no other tokens than these and drops |
| FilterGrammar.MatchFaultsIff | lib_flow.c:351-385 | the match loop reads through a null address exactly at a dl-src in its place, after a correct prefix, with a malformed address |
| FilterLines.LineFitsIff | lib_flow.c:164-168 | a line stays inside both arrays exactly if no field option overruns the tuples and, where the action loop is reached, at most 24 out-port options precede each of its writes |
| FilterLines.TwoChainLines | lib_flow.c:164-168 | a line with at most two in-phy-port options can only overrun the actions |
| FilterLines.AcceptedFitsIff | lib_flow.c:164-168 | what the loops make of a line fits exactly if the call has at most 25 tuples and 25 actions and no drop stands behind the 25th output |
| FilterLines.UndefinedIff | lib_flow.c:164-682 | a line has undefined behaviour exactly if a dl-src faults, a field or an action overruns its array, or it is otherwise correct and its last device number is flw_dev_cnt |
| FilterInvariant.ReachableInvariant | lib_flow.c:183-626 | in every reachable state rqd_field is the stage of the last tuple, the tuples from the last in-phy-port on are the chain prefix of this stage, and device and table are in range |
| FilterInvariant.StageTenUnreachable | lib_flow.c:562-604 | stage 10 and stages above 12 are never reached |
| Capacity.TuplesFitIff | lib_flow.c:265-625 | the match loop writes past the tuples exactly at a field option in its place behind a correct prefix that stores 25 |
| Capacity.GrammarFitsIff | lib_flow.c:164-625 | a correct list of match tokens fits exactly if it has at most 25 field options |
| Capacity.TupleBound | lib_flow.c:625 | there are at most 11 tuples for every in-phy-port option |
| Capacity.TwoChainsFit | lib_flow.c:164-167 | with at most two in-phy-port options every write stays inside the tuple array |
| Capacity.ActionsFitIff | lib_flow.c:628-659 | the action array is big enough exactly if at most 24 out-port options precede each drop or out-port option reached |
| Capacity.ActionCapacity | lib_flow.c:165-168 | a list of valid actions fits exactly if it has at most 25 out-port options and no drop behind the 25th |
| Capacity.DropNeedsRoom | lib_flow.c:632-636 | inserting a drop keeps an action list inside the array exactly if fewer than 25 out-port options stand before it or it is not reached |
| FilterRuns.FilterRun.CommandOption | lib_flow.c:187-210 | the word filter changes nothing, and the last of add, del and dump is the command |
| FilterRuns.FilterRun.MatchOption | lib_flow.c:187-625 | one round of the match loop takes exactly the step of the automaton, on the variables and on the bytes of the tuple array |
| FilterRuns.FilterRun.NumberField | lib_flow.c:276-280 | stores the 16-bit value of a numeric option as two bytes, refuses an option without a value |
| FilterRuns.FilterRun.DlDstField | lib_flow.c:314-348 | stores the six octets, refuses a missing value or a malformed address |
| FilterRuns.FilterRun.DlSrcField | lib_flow.c:359-385 | stores the six octets of a well-formed address |
| FilterRuns.FilterRun.PtonInto | lib_flow.c:438 | writes the four octets of a canonical address and nothing for any other text |
| FilterRuns.FilterRun.SwapBytes | lib_flow.c:445-450 | exchanging two bytes through a signed char loses nothing |
| FilterRuns.FilterRun.Ip4Field | lib_flow.c:427-452 | stores the octets of a canonical address in reverse order |
| FilterRuns.FilterRun.MatchPhase | lib_flow.c:183-626 | the match loop ends as the automaton does on the whole token list, and leaves the tokens behind the action word |
| FilterRuns.FilterRun.ActionOption | lib_flow.c:630-658 | a drop writes a slot but counts nothing, an out-port adds its 16-bit value |
| FilterRuns.FilterRun.ActionPhase | lib_flow.c:628-659 | the action loop ends as its specification does, with all tokens taken |
| FlowModules.FlowModule.RegisterDev | lib_flow.c:725-732 | appends the device to the table |
| FlowModules.FlowModule.FibCmdFilter | lib_flow.c:157-682 | makes exactly the device call that the line asks for, to its slot of the table, or none; the tokens taken are a prefix of the line, all of it when accepted |
| FlowModules.FlowModule.Dispatch | lib_flow.c:661-677 | calls the operation of the command word on the slot dev_id with the stored tuples and actions |
| FlowModules.FlowModule.CmdLoad | lib_flow.c:684-709 | makes the calls of all buffers of the file, one after the other |
| FlowModules.FlowModule.CliCmd | lib_flow.c:745-763 | filter lines and load lines make their calls, other lines none |
| CanonicalFiles.FilterCommand | lib_flow.c:752-753 | a line that starts with filter makes the call of its tokens if accepted with a command word, and none otherwise |
| CanonicalFiles.OtherCommand | lib_flow.c:745-763 | a line that starts with neither filter nor load makes none |
| CanonicalFiles.CanonicalCommand | lib_flow.c:752-753 | the canonical line of a well-formed call, as a command, makes this call |
| FlowModules.LoadIsHomomorphism | lib_flow.c:704-706 | loading a closed file and then another makes the calls of loading their concatenation |
| Files.PiecesOfConcatenationIff | lib_flow.c:704 | reading two files in turn gives the buffers of their concatenation if and only if the first one is closed or the second one is empty |
| Files.NewlineCloses | lib_flow.c:704 | a file that ends with a newline is closed |
| Files.FgetsMeaning | lib_flow.c:687-704 | fgets gives the text up to and including the first newline, at most 4095 characters, and less only at a newline or the end |
| Files.PiecesConserve | lib_flow.c:704 | the buffers joined give the file back |
| FlowDump.PrintValue | lib_flow_dbg.c:87-125 | prints each id in its format, reading its bytes unsigned |
| FlowDump.DumpFlow | lib_flow_dbg.c:70-133 | the text starts with the banner and two lines from which device and table can be read; then tuple lines, action lines and table note, or the notice for a null flow; the result is 1 or 0 |
| FlowDump.DumpOfHolders | lib_flow_dbg.c:82-129 | the dump of records depends only on the bytes that the command line determined |
| DumpUnique.TupleLineUnique | lib_flow_dbg.c:84-119 | a tuple line and what follows it can be told apart, and the line gives id and value bytes back |
| DumpReading.TupleLineIs | lib_flow_dbg.c:84-124 | the line of every one of the 30 tuples: number, name, and value in the format of its name |
| DumpReading.DumpLines | lib_flow_dbg.c:70-133 | the lines of a dump, one by one |
| DumpReading.OptionShown | lib_flow.c:265-625 | from command to dump: every field option is shown on its own line, with the number and the name of its tuple and the value that was given |
| DumpReading.PortShown | lib_flow_dbg.c:127-129 | every out-port option is shown on its own line with its value modulo 256 |
| DumpReading.NothingElseShown | lib_flow_dbg.c:70-133 | the dump has these lines, the header with device and table, the note on a table other than 0, and no more |
| DumpUnique.DumpUniqueIff | lib_flow_dbg.c:70-133 | two dumps of any length, over all tuple ids, are equal exactly if device, table, all shown tuples, and all action ids with their low bytes are equal |
| RoundTrip.DecodeOfText | lib_flow.c:278-611 | for each of the 11 fields, decoding the printed value gives the stored bytes back, and none for a malformed IPv4 address |
| RoundTrip.ParseOfRender | lib_flow.c:164-682 | parsing the canonical line of a call, with or without the newline of a file, gives exactly this call if it fits the arrays, and overruns them otherwise |
| CanonicalFiles.RenderFitsBuffer | lib_flow.c:704 | the canonical line of every well-formed call, with its newline, fits the buffer of fgets |
| CanonicalFiles.LoadOfFileText | lib_flow.c:684-709 | loading a file written from any list of well-formed calls, one line for each, makes exactly these calls |
| CanonicalFiles.LoadCalls | lib_flow.c:690-706 | a load line makes the calls of the file that it names if this exists and has a name of at least four characters, and none otherwise; a final newline belongs to the name |
| CanonicalFiles.LoadCommand | lib_flow.c:684-763 | as a load command on the name of such a file: its calls, or none if the name has fewer than four characters |
| ParsedFlows.WellFormedIff | lib_flow.c:164-682 | the well-formed calls, of at most 25 tuples and 25 actions, are exactly those that some command line asks for |
| ParsedFlows.NormalForm | lib_flow.c:164-682 | the canonical line of what an accepted line means is accepted, inside the arrays, with the same meaning |
| ParsedFlows.LineDeterminesIff | lib_flow.c:438-487 | an accepted line determines all bytes that the dump shows exactly if every IPv4 option in it has a well-formed address |
| ParsedFlows.DumpDeterminedIff | lib_flow_dbg.c:70-133 | all records that a device may get for an accepted line print the same dump exactly if every IPv4 option in it has a well-formed address |
| ParsedFlows.LinesWithEqualDumps | lib_flow_dbg.c:70-133 | two accepted lines without malformed addresses print equal dumps exactly if they agree on device, table, tuples, and the low bytes of the ports |
| ParsedFlows.ShownNumber | lib_flow_dbg.c:89-98 | a numeric option with any integer is shown modulo 65536 |
| ParsedFlows.ShownType | lib_flow_dbg.c:99-101 | a hexadecimal dl-type is shown modulo 65536 |
| ParsedFlows.ShownMac | lib_flow_dbg.c:102-111 | an Ethernet address is shown as it was given |
| ParsedFlows.ShownAddress | lib_flow_dbg.c:112-119 | an IPv4 address is shown back to front |
| ParsedFlows.AddressInvolution | lib_flow.c:438-487 | entering the address that the dump shows, and dumping again, shows the first address |
| ParsedFlows.LineEndSpoilsAddress | lib_flow.c:438 | an address followed by the newline of a file line determines no byte |
| BridgeSpec.OptionLanguage | lib_bridge.c:139-191 | each option loop accepts exactly the lists of valid options, and the last option of every key wins |
| BridgeSpec.WordMeaning | lib_bridge.c:139-191 | the tokens of the five loops by their text; add-br and del-br have to be the whole token |
| BridgeSpec.ValidMeaning | lib_bridge.c:139-191 | a loop takes a token exactly if it is its own word or an option with a value, for dev the number of a registered device |
| BridgeSpec.OrderIrrelevantIff | lib_bridge.c:139-191 | all permutations of an option list have the same effect if and only if some option is not valid or no two options contradict each other |
| BridgeSpec.BridgeLanguage | lib_bridge.c:127-529 | a bridge line is refused exactly if some token is not a valid option, reads an unassigned variable exactly if all are valid and a needed one is missing, and otherwise makes the one call with the last value of every key |
| BridgeSpec.PermutedLine | lib_bridge.c:127-529 | as text: options with distinct keys in any order behind the command word have the same outcome, and if all are valid and none is missing this is the one call that passes each of them |
| BridgeText.ParseOfRender | lib_bridge.c:127-529 | parsing the canonical line of any well-formed bridge call gives this call |
| BridgeText.ParseOfReordered | lib_bridge.c:127-529 | the options of this line in any order give the same call |
| BridgeText.WellFormedCallIff | lib_bridge.c:559-591 | the well-formed bridge calls are exactly those that some command line makes |
| BridgeText.CommandWordDispatch | lib_bridge.c:566-583 | a line that starts with a command word and a space is dispatched to this command |
| BridgeText.BareCommand | lib_bridge.c:127-193 | the command word alone reaches the call with unassigned variables |
| BridgeSpec.CliPicksLongest | lib_bridge.c:563-588 | the tests of cli_cmd implement longest-keyword match |
| BridgeSpec.CliReorderingIff | lib_bridge.c:563-588 | another order of these tests dispatches every line alike exactly if add-br-if stays before add-br and del-br-if before del-br |
| BridgeLoad.CliMeaning | lib_bridge.c:563-588 | which lines are dispatched to which command, by their text |
| BridgeModules.BridgeModule.RegisterDev | lib_bridge.c:83-90 | appends the device to the table |
| BridgeModules.SentAt | lib_bridge.c:193 | every call is sent, in order, to the device in the slot that it names |
| BridgeModules.BridgeModule.CmdAddBr | lib_bridge.c:127-196 | makes exactly the call that the option parser gives for add-br |
| BridgeModules.BridgeModule.CmdDelBr | lib_bridge.c:198-267 | the same for del-br |
| BridgeModules.BridgeModule.CmdDelBrIf | lib_bridge.c:268-354 | the same for del-br-if |
| BridgeModules.BridgeModule.CmdAddBrIf | lib_bridge.c:355-441 | the same for add-br-if |
| BridgeModules.BridgeModule.CmdSetAge | lib_bridge.c:443-529 | the same for set-age |
| BridgeModules.BridgeModule.CliCmd | lib_bridge.c:559-591 | terminates on every line whose reachable files are ranked, with the calls of its specification |
| BridgeModules.BridgeModule.CmdLoad | lib_bridge.c:532-557 | the same for a load line, through its file |
| BridgeLoad.TraceIsInlined | lib_bridge.c:532-591 | the calls of the mutual recursion are those of the recursively inlined command list |
| BridgeLoad.InlinedLoadsNothing | lib_bridge.c:552-554 | the inlined list loads no file any more |
| BridgeLoad.RankIrrelevant | lib_bridge.c:552-554 | the inlined list does not depend on the ranking that shows termination |
| LoadEnds.LoadEndsIff | lib_bridge.c:532-591 | executing a line ends exactly if no load cycle can be reached from it, exactly if the files it reaches have a ranking, and then within as many nested files as there are |
| LoadEnds.RunIsInlined | lib_bridge.c:532-591 | a run that ends makes the calls of the inlined command list |
| LoadEnds.SelfLoadNeverEnds | lib_bridge.c:552-554 | loading a file that loads itself never ends |
| LoadEnds.LoadOpensIff | lib_bridge.c:540-551 | a load line opens the file that it names exactly if this exists, has a name of at least four characters, and no newline follows; with a newline it asks for the name with the newline |
| BridgeFiles.LoadCommand | lib_bridge.c:532-591 | running a load line on a file written from any list of well-formed bridge calls makes exactly these calls, or none if its name has fewer than four characters |
| BridgeFiles.LoadIsRunnable | lib_bridge.c:532-591 | such a line has a ranking and only defined commands, so that the module may execute it |
| Linking.LinkedIsRepeat | main.c:290-300 | the linking loops fill a table with the supporting switches in registration order, once per protocol of its type |
| Linking.LinkedCount | main.c:290-300 | a device count is the number of protocols times the number of supporting switches |
| Linking.SupportingMembers | lib_flow_stub_main.c:39-46 | a device is linked exactly if some registered switch that supports the protocol owns it |
| Linking.LoadOrderIrrelevant | main.c:275-300 | how switch and protocol modules interleave on loading does not change a table |
| Linking.PermutedBoot | main.c:275-300 | loading the same modules in any order gives a table with the same devices, each as often |
| Linking.Main.RegisterMod | main.c:56-75 | a module is appended to the table of its kind and to no other |
| Linking.Main.ProtoRegister | lib_asic.c:30-47 | sets the handle of the device, and registers it if and only if the switch supports the protocol |
| Linking.Main.LinkProtocol | main.c:293-298 | one protocol adds exactly the supporting switches to its own table |
| Linking.Main.Link | main.c:290-300 | both tables are exactly what the nested loops are specified to add, and every unshared device knows its switch |
| Linking.Main.AppMsgQrySw | main.c:114-145 | overwrites the buffer with the types of all switches, or with that of the one asked for, and leaves the rest |
| Linking.OneModule | main.c:24-42 | a switch module adds its switch, a protocol module its protocol, any other module neither |
| Linking.BootMembers | main.c:274-300 | a device is in a table exactly if a loaded switch that supports the protocol owns it and a protocol of this type is loaded |
| Linking.Boot | main.c:274-300 | for any load order the tables hold the supporting switches in registration order, once per protocol of the type; every loaded switch of a loaded protocol is linked |
| EndToEnd.CallReachesSwitch | main.c:290-300 | the device call of an accepted line goes to the device of a loaded switch that supports the flow protocol, found by its number modulo their count, with the operation, table, ids and bytes of the line |
| EndToEnd.BridgeCallReachesSwitch | lib_bridge.c:193 | the call of a bridge line goes to the device of a loaded switch that supports the bridge protocol, found alike |
| EndToEnd.DeviceDump | lib_flow_stub.c:11-23 | the dump that the called device prints for a line without malformed addresses is the text of the call, whatever the other bytes are |
| Findings.DeviceLine | lib_flow.c:218-237 | "filter add dev=n" is accepted exactly for the registered devices, undefined at their count, and refused otherwise |
| Findings.TableLine | lib_flow.c:239-261 | "filter add tbl=n" is accepted exactly for tables that are not negative |
| Findings.GuardTooWide | lib_flow.c:231-234 | for every device count there is a line that fits the arrays, passes the guard and calls through an unregistered slot |
| Findings.NullAddress | lib_flow.c:375-385 | a dl-src in its place with any malformed address reads through a null pointer |
| Findings.NullAddressLine | lib_flow.c:375-385 | one such line |
| Findings.PhyPortsOverrun | lib_flow.c:265-269 | a line of n in-phy-port options is accepted exactly up to n = 25 and overruns the array otherwise |
| Findings.SpoiltAddressLine | lib_flow.c:438-451 | an accepted line whose nw-dst has no address, so that its dump is not determined |
| Findings.NewlineHidesFile | lib_bridge.c:547-554 | "load rules" and a newline does not load the file "rules" |
| Findings.ShortNameIgnored | lib_flow.c:692 | "load abc" does not load the file "abc" |
| Findings.TupleNamesIff | lib_flow_dbg.c:6-37 | every tuple prints under the name of its enumeration constant but ipv6_ext_hdr |
| Findings.NoActionKeepsItsName | lib_flow_dbg.c:39-67 | no action prints under the name of its enumeration constant |
| Findings.ActionPrintsAs | lib_flow_dbg.c:127-129 | under which name every action prints instead |
| Findings.PortsPrintAsQueues | lib_flow_dbg.c:127-129 | every action of an accepted line prints as enqueue_queue with its low byte |

## Left out

- Sockets, `fork`, signals, `dlopen` and `readdir`, the interactive shell, and the client program: operating-system plumbing; the order in which libraries load is a parameter of `Boot`.
- Diagnostic prints of the parsers: only the text of `dump_flow` is modelled.
- Bodies of the stub devices, which print and dump: replaced by the list of calls; `EndToEnd.DeviceDump` covers the dump.
- Message tables and their handlers, which forward by numeric id: one-line forwards.
- Tables of communication and shell modules in `register_mod`: the same append as for switches and protocols.
- `exit_handler`, `show` and `help`: no effect on any table or device.
- `atoi` and `strtol` on numbers beyond `int` and `long`: the model computes the exact integer before the conversion to `short`.
- Strings with a NUL character, and files containing one: a C string ends there.
- The limits of open files and of the stack: `cmd_load` keeps its file open while it runs the lines of it, so an endless load of the model stops in the program when `fopen` fails or the stack ends.
- `strdup` and memory management: the model has no allocation failure, and the copies are never freed in the source.
- Multi-byte order: the two bytes of a `short` are stored least significant first, as on the x86 targets of the program.
- Linking.Main.ProtoRegister: one method for the callbacks of both switch modules, which differ only in the protocol they support and in the name the flow stub also sets.
- FilterGrammar.DropIsInvisible: says nothing about the room that a drop needs; `DropNeedsRoom` does.
