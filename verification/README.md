# VPN manager core: a verified model

The project models the C core of the VPN manager (`master/`) and the parts of its web side that
share data with it, and proves what they keep over whole runs.

- **Session reconciler** (`StatusStream`, `StatusDump`, `DumpLaws`, `LineSplit`, `IdList`, `Sessions`,
  `SessionHistory`, `SessionInterleaving`, `SessionRefinement`). A monitor receives an OpenVPN
  `status 2` dump in pieces, splits its lines in place, resolves names to profiles, and inserts,
  updates and closes session rows. The table is the state and a tick is a step. The history of a
  profile is proved to be its intervals of presence; the statements of several monitors are then
  interleaved, and each config's rows turn out to be those of its own ticks run one by one.
- **Monitor registry** (`MonitorRegistry`, `RegistryInterleaving`). Contexts that are found or
  inserted, beside a list of 32 slots with swap-removal; the calls around them; and a machine with
  one step for each locked region, in which calls for different configs interleave.
- **Log redaction** (`LogRedaction`, `RedactionLaws`, `LogLevels`). The in-place scan that rewrites PEM blocks (the boundaries of
  section 2 of RFC 7468) and password values: it ends, it is complete, its growth is bounded, and it is carried out in a
  character array by `memcpy` and `memmove`. What it does to every text is stated case by case, and
  tied to the configured level.
- **Configuration reader** (`ConfigTokens`, `ConfigTree`, `ConfigReading`, `ConfigParser`, `ConfigRoundTrip`). The token machine
  against the meaning of the document tree.
- **Masks, prefixes and pools** (`Bits`, `Netmask`, `MaskText`; the prefixes of section 3.1 of
  RFC 4632), for any word width where the code
  allows it. Shifts and bitwise operators are functions on natural numbers defined bit by bit;
  conversion to an unsigned word keeps its lowest bits.
- **Certificates** (`CertStore`, `CertLifecycle`, `CertHandlers`). Requests as atomic steps over the
  tables, with abstract keys and an injective digest; the handlers keep the invariant of the tables.
- **Web requests on configurations** (`ConfigPairing`). Statements that are committed one by one
  and held together by compensating deletes.
- **SQL quoting** (`SqlEscape`).

`CText`, `Decimal` and `Options` hold C strings, numerals and `Option`.

What the outside world answers is a parameter: whether a statement, a signal, a thread creation or
an OpenSSL call succeeds, which row an unordered query returns, the time. A process is a fate that
`stop_openvpn` or `start_openvpn` meets. Code that changes things step by step is a method (in a
class where it has state), proved equal to a function of the old state; the theorems are about that
function.

Results that a reader of the code might not expect:

- A lookup of the open session that fails counts as finding none, and an insert after it opens a
  second session for the profile (`Sessions.FailedLookupDoubles`). Consistency is kept exactly when
  that does not happen (`Sessions.TickKeepsConsistentIff`, `SessionInterleaving.StepKeepsInvIff`).
- At most 32 running monitors do not keep the list of running configs complete. A monitor that is
  being stopped keeps its slot until it is joined, and a start in between is dropped from the list
  although its monitor runs (`RegistryInterleaving.ThirtyTwoFlagsCanDropAStart`). The list is
  complete exactly when no start finds it full, and in particular when at most 32 configs are
  running *or being stopped* (`RegistryInterleaving.ListIsRunningSet`).
- A password value of 20 bytes or more is not masked, and when a PEM block inside it is redacted
  later, the text before the block remains in front of the marker
  (`LogRedaction.LaterBlockCutsValue`).
- An open session whose profile was deleted is closed by the first dump in which nobody is
  resolved, and by no other (`Sessions.OrphanedSessionIsClosedWhen`). Profiles beyond the 256th
  entry of a dump are opened and closed in one tick; the theorems speak of the list that is cut
  at 256.
- The two prefix computations of the web forms agree only on zero; on masks the edit form is one
  less (`Netmask.AddAgainstEdit`).
- The configuration reader takes a recognised top-level name wherever it stands below an unknown
  section (`ConfigTree.ReusedNamesAreTaken`); `ConfigTree.ChangesNothingIff` says exactly which
  parts of a document change nothing.
- A block sequence that is indented under its key ends with a token that has no counted start, so
  the depth moves by one. A section is ended early exactly when it has such a sequence in it;
  sequences in the column of their key, flow sequences and sequences in unknown sections do no harm
  (`ConfigReading.SectionIsHeldIff`, `ConfigReading.PlaceComesBackIff`).
- An add request leaves a configuration without its extension row exactly in the cases of
  `ConfigPairing.Orphans`: a mask that is true but not a string, or a compensating delete that
  fails.
- A query for references that fails counts as finding none, and a CA that a configuration uses is
  then deleted (`CertLifecycle.FailedCheckLosesCa`); nothing else leaves a fingerprint without its
  CA (`CertLifecycle.ResolvesThroughoutIff`).
- The branch of `gen_client_cert` that looks a certificate up for a configuration without one
  never leads to a certificate (`CertLifecycle.ClientIsSignedWhen`).
- Redaction is not idempotent, and the project does not claim it.

## Model

| member | source | states |
|---|---|---|
| LogRedaction.RedactionIsComplete | master/logger.c:17-55 | for any message, a BEGIN line that survives has no END line after it or a block too short to hold the marker, and a value after a surviving password is one the scan does not mask (empty, starting with white space, at least 20 long), or holds the whole mask, or was cut short by the marker of a block |
| LogRedaction.LaterBlockCutsValue | master/logger.c:22-38 | how a value is cut short: a block inside a value that was too long to mask is redacted later, and what stood before the block remains |
| LogRedaction.ValueStaysSettled | master/logger.c:34-50 | an edit further on leaves a settled value as it is, or makes it show the mask or the marker |
| LogRedaction.StepSettles | master/logger.c:21-54 | one pass of the loop settles its position and undoes nothing before it |
| LogRedaction.WordSurvives | master/logger.c:34-37 | an edit creates no occurrence of BEGIN, END or password: each one after it was one before it |
| LogRedaction.BlockAheadOfEditStays | master/logger.c:22-33 | an edit behind the first END of a block leaves that block as it was |
| LogRedaction.PeakWithinBudget | master/logger.c:20-54 | the scan ends, and the text never grows beyond n + 9k bytes, k being the occurrences of "password" |
| LogRedaction.BoundIsReached | master/logger.c:40-52 | the bound is tight: behind any plain text, a value of one character needs nine bytes more |
| LogRedaction.ShortMessageFits | master/logger.c:67-72 | a message of n bytes with k occurrences of "password" and n + 9k below 4096 fits the buffer of log_message all the time |
| LogRedaction.FullMessageDoesNotFit | master/logger.c:67-72 | a message that fills that buffer and ends in "password:x" needs nine bytes more than there are |
| LogRedaction.StepWithinBudget | master/logger.c:22-53 | a pass may lengthen the text by nine bytes only where it uses up an occurrence of "password" |
| LogRedaction.ScanKeepsPrefix | master/logger.c:21-54 | nothing before the cursor changes again |
| LogRedaction.PlainTextIsKept | master/logger.c:17-55 | a message is unchanged up to its first searched word, and entirely if it has none |
| LogRedaction.RedactBlockInPlace | master/logger.c:22-39 | the copy and the move in the buffer are the replacement of the block in the text |
| LogRedaction.MaskValueInPlace | master/logger.c:44-51 | the move and the copy in the buffer are the replacement of the value in the text, also when it grows |
| LogRedaction.FindValue | master/logger.c:41-42 | the cursor skips exactly the separators |
| LogRedaction.MaskSensitive | master/logger.c:17-55 | in any buffer with room for the longest intermediate text, the message becomes its redaction and stays terminated |
| RedactionLaws.ScanBehind | master/logger.c:21-54 | what stands before the cursor does not matter for what is redacted behind it |
| RedactionLaws.CharacterIsKept | master/logger.c:21-54 | a character at which neither "-----BEGIN" nor "password" starts is kept, and the text behind it is redacted as if it stood alone |
| RedactionLaws.TextIsKept | master/logger.c:21-54 | so is a text in which neither word starts, whatever follows it |
| RedactionLaws.BlockIsRedacted | master/logger.c:22-39 | a block of at least 23 bytes, up to the end of the line of its first "-----END", becomes the marker, and the text behind it is redacted as if it stood alone |
| RedactionLaws.ShortBlockIsKept | master/logger.c:29-38 | a shorter block is kept at its BEGIN |
| RedactionLaws.OpenBlockIsKept | master/logger.c:22-28 | so is a BEGIN without an END after it |
| RedactionLaws.ValueIsMasked | master/logger.c:40-51 | a value of 1 to 19 characters that starts with no white space, up to the first space, or without one ahead the first comma, or the end, becomes "[PASSWORD]"; what stands before and behind it is kept and redacted |
| RedactionLaws.ValueIsKept | master/logger.c:40-51 | any other value is kept, at its "password" |
| RedactionLaws.PasswordIsMasked | master/logger.c:40-51 | behind any plain text, "password=" and such a value become "password=[PASSWORD]" |
| RedactionLaws.NoTakenValueIsLeft | master/logger.c:17-55 | after the scan of any message, a value of that kind behind a surviving "password" shows the mask, or the marker of a block |
| LogLevels.LevelsInOrder | master/logger.c:7-15 | a document that sets its last level to "debug", "warn" or "error" logs everything, warnings and errors, or errors; any other text, or none, logs everything but debug messages |
| LogLevels.LoggedMessagesAreRedacted | master/logger.c:67-72 | what is logged is the first 4095 bytes of a message, redacted exactly when the level is not "debug" |
| LineSplit.SplitLine | master/monitor.c:47-64 | overwriting commas in place yields the first segments of the comma split, without a trailing empty one; each field reads back from the buffer |
| LineSplit.FieldsRejoin | master/monitor.c:47-64 | at most the allowed number of fields, none with a comma, and joined again they begin the line |
| LineSplit.SegmentsOfJoin | master/monitor.c:47-64 | splitting undoes joining |
| LineSplit.SegmentsRejoin | master/monitor.c:47-64 | joining undoes splitting |
| StatusDump.ParseLine | master/monitor.c:81-120 | a line reports a client exactly when it is a client line of seven fields, with its counters and address |
| StatusDump.ClientLineIsReported | master/monitor.c:81-120 | a client line says what its first seven fields say, each in its place; later fields do not matter |
| StatusDump.ShortLineIsNotReported | master/monitor.c:93-97 | a client line of fewer fields is skipped |
| DumpLaws.DumpReportsItsLines | master/monitor.c:72-83 | a dump reports what its lines report, in order, each line by its first 4095 characters |
| DumpLaws.LastLineAlone | master/monitor.c:73-78 | a last line without a newline counts as well |
| DumpLaws.ClientLine | master/monitor.c:81-107 | a client line of at least seven fields and up to 4095 characters reports the first three, the two counters and the time, each from its place |
| DumpLaws.OtherLine | master/monitor.c:81-83 | any line without the heading reports nothing |
| DumpLaws.PortIsStripped | master/monitor.c:116-120 | the address is what stands before the first colon, of at most 63 characters |
| DumpLaws.CounterIs | master/monitor.c:106-107 | a counter is read up to the first character that is no digit, at most 2^64 - 1, and counted back from 2^64 behind a minus sign |
| Decimal.CounterOfPrint | master/monitor.c:106-107 | a printed 64-bit counter is read back |
| Decimal.NothingToRead | master/monitor.c:106-107 | a text without a digit in front, behind a sign or not, counts as zero |
| StatusStream.ReceiveStatus | master/monitor.c:340-350 | whatever pieces arrive, at most 16383 bytes are kept, they are a prefix of the stream, and reading stops only at an END line, at the end of the stream or when the buffer is full |
| StatusStream.SplitDoesNotMatter | master/monitor.c:340-356 | any two ways of cutting a stream report the same clients, if no client line follows its END |
| StatusStream.ReceivedReports | master/monitor.c:72-83 | what a reception reports is what the stream reports up to its first END, whole lines only |
| StatusStream.ReportsOfPrefix | master/monitor.c:72-83 | reading part of a dump is reading the dump up to there |
| DumpLaws.StopsOnlyAtEnd | master/monitor.c:340-350 | a reception keeps at most 16383 characters and stops short of the stream and of that limit only with an END line in what it has |
| IdList.LiteralParsesBack | master/monitor.c:217-225 | the array literal reads back as the online list, in order |
| IdList.LiteralFits | master/monitor.c:219-225 | the literal fits its 1024 bytes exactly when digits and entries together are at most 1022 |
| IdList.BuildIdList | master/monitor.c:217-225 | repeated concatenation in the buffer gives that literal |
| Decimal.ValueOfPrint | master/monitor.c:222 | reading a printed number gives it back |
| Sessions.Resolve | master/monitor.c:129-138 | a name resolves to the one profile of that user in this config, or to none if there is none |
| Sessions.LineOf | master/monitor.c:123-138 | a client line is looked up by its common name: it is resolved exactly when the query succeeds and a profile of the config belongs to the user of that name, and to that profile |
| Sessions.MatchIsUnique | master/monitor.c:129-138 | a name belongs to one profile of a config at most |
| Sessions.OpenRow | master/monitor.c:146-152 | the lookup finds an open row of the profile if there is one |
| Sessions.TickKeepsConsistentIff | master/monitor.c:129-257 | a tick keeps at most one open session for every profile, in the profile's config, exactly when no failed lookup of an open profile is followed by an insert that succeeds, unless the tick closes the profile again |
| Sessions.TickLastOnly | master/monitor.c:145-206 | the same for one profile |
| Sessions.TickKeepsConsistent | master/monitor.c:129-257 | in particular when every lookup succeeds, whatever other statements fail |
| Sessions.FailedLookupDoubles | master/monitor.c:150-206 | one failed lookup for a profile with an open session opens a second one |
| Sessions.TickKeepsInConfig | master/monitor.c:129-206 | open sessions stay in the config of their profile, whatever statements fail |
| Sessions.TickTouchesOnly | master/monitor.c:66-258 | a tick changes no closed row and no row of another config, and new rows belong to its config |
| Sessions.TickAssignsOnline | master/monitor.c:66-258 | after a tick whose writes succeed, and whose id list fits its literal (see IdList.LiteralFits), the profiles of the config with an open session are exactly the online list, which is every resolved profile of a dump of at most 256 entries, whether lookups failed or not |
| Sessions.OpenAfterDump | master/monitor.c:66-258 | when every statement succeeds and at most 256 reports name somebody with a profile in the config, a profile of the config has an open session after the tick exactly when a report carries the name of its user |
| Sessions.TickClosesNow | master/monitor.c:233-251 | a session that a tick closes carries the time of the tick, and one closed before keeps its own |
| Sessions.TickSparesOthers | master/monitor.c:216-257 | a profile of another config keeps its open session, or has none |
| Sessions.OrphanedSessionIsClosedWhen | master/monitor.c:233-251 | an open session without a profile is closed exactly by a tick that resolves nobody |
| Sessions.SessionTable.Disconnect | master/monitor.c:233-251 | the closing statement closes exactly the rows of its condition |
| Sessions.SessionTable.UpdateSessions | master/monitor.c:66-258 | the reconciler does to the table what the tick of the dump's reports says; closed sessions and those of other configs are not touched, and the table stays consistent exactly when no profile is left doubled; when everything succeeds and at most 256 reports are known, the open sessions of the config are those of the profiles whose users the dump names |
| SessionHistory.RowsAreIntervals | master/monitor.c:66-258 | after any run of ticks whose statements succeed, and whose id lists fit their literals, the rows of a profile are one row for each interval of presence, opened with the data of its first line and carrying the counters of its last; the last one is open exactly when the last tick left the profile online |
| SessionHistory.RowsCreated | master/monitor.c:145-207 | over a run, as many rows are created for a profile as there are ticks that see it and follow one that did not leave it online |
| SessionHistory.IntervalsAreAppearances | master/monitor.c:66-258 | intervals of presence and appearances are equally many |
| SessionHistory.AppearancesOfSmallDumps | master/monitor.c:141-143 | with at most 256 entries a dump, appearing means being seen when the dump before did not see it |
| SessionHistory.RunKeepsConsistentIff | master/monitor.c:66-258 | the table is consistent after each tick of a run exactly when no tick leaves a profile with two open rows |
| SessionInterleaving.OneOpenSessionPerProfile | master/monitor.c:129-206 | under any interleaving of the statements of several monitors, and of changes by the web side, a profile has at most one open session, in its own config, as long as no write is blind: after a failed lookup, for a profile with an open session |
| SessionInterleaving.StepKeepsInvIff | master/monitor.c:129-257 | a statement, or a change by the web side, keeps one open session for a profile, and what every monitor has found valid until it writes, exactly when it is not a blind write |
| SessionInterleaving.RunKeepsInvIff | master/monitor.c:129-257 | over a run that holds up to any moment exactly when no step before was blind |
| SessionInterleaving.WriteIsObserve | master/monitor.c:152-207 | a write lands where an atomic line would have put it |
| SessionInterleaving.ClosedSessionsStay | master/monitor.c:233-251 | no step changes a closed session, except for references that a deletion sets to NULL |
| SessionRefinement.InterleavedTicksAreSequential | master/monitor.c:66-258 | however statements interleave, and whatever the web side changes in between, the rows of a profile between ticks of its monitor are those its own ticks would leave if run whole and alone |
| SessionRefinement.FinishedTicksAreWhole | master/monitor.c:72-258 | the ticks of a monitor are whole: the lines that a finished tick has handled are, in order, those that it began with, with what the queries and statements answered on the way |
| SessionRefinement.InterleavedRowsAreIntervals | master/monitor.c:66-258 | so the history of intervals holds under interleaving and under changes by the web side, as far as the id lists fit their literals |
| SessionRefinement.OthersSpare | master/monitor.c:145-257 | a step of another monitor, or of the web side, does not change the rows of a profile that it does not delete |
| MonitorRegistry.SwapRemoveTakesOne | master/monitor.c:394-399 | swap-removal takes out exactly the one id and keeps the list free of duplicates |
| MonitorRegistry.StartedCoherent | master/monitor.c:366-384 | a start keeps the list free of duplicates, at most 32 long and a part of the flagged configs; it drops its config exactly when the list is full |
| MonitorRegistry.StoppedCoherent | master/monitor.c:387-403 | a stop removes its config from flags and list and nothing else |
| MonitorRegistry.RoomForAll | master/monitor.c:378-380 | while at most 32 configs run, every one is listed |
| MonitorRegistry.MonitorRegistry.GetCtx | master/monitor.c:28-44 | the context of a config is found or appended; no context moves or goes, and there is one for each config |
| MonitorRegistry.MonitorRegistry.MonitorStart | master/monitor.c:366-384 | flags and list after a start; it reports success exactly when the config is flagged |
| MonitorRegistry.MonitorRegistry.MonitorStop | master/monitor.c:387-403 | flags and list after a stop |
| MonitorRegistry.MonitorRegistry.StopOpenvpn | master/openvpn.c:158-192 | success alone means that the config is unmonitored; when the signal cannot be sent nothing changes |
| MonitorRegistry.MonitorRegistry.StartOpenvpn | master/openvpn.c:607-690 | exactly when the config is monitored afterwards and exactly when it is listed: a start that gets as far as the monitor adds it when it is there already, or there are fewer than 32 in the list and a running one could be stopped; other configs keep flag and slot |
| MonitorRegistry.RestartLists | master/openvpn.c:607-690 | what stopping a config that runs and starting it again does to the list |
| MonitorRegistry.MonitorRegistry.MonitorStopAll | master/monitor.c:405-421 | whatever the signals do, the snapshot loops over a shrinking list leave the list empty and only unlisted monitors running |
| RegistryInterleaving.RegistryAgrees | master/monitor.c:28-44 | in every reachable state of the interleaved calls the list is free of duplicates and at most 32 long, a config has at most one context, and outside of calls between flag and list, flagged means listed or dropped |
| RegistryInterleaving.ListIsRunningSet | master/monitor.c:366-403 | the list is the set of flagged configs, except those mid-call, all the time exactly when no start finds it full; at most 32 configs flagged or being stopped are enough for that |
| RegistryInterleaving.ListCompleteIff | master/monitor.c:378-381 | the same from any sound state in which nothing was dropped |
| RegistryInterleaving.ThirtyTwoFlagsCanDropAStart | master/monitor.c:378-392 | a run with at most 32 flags at every moment after which a running config is not listed |
| RegistryInterleaving.StopCompletes | master/monitor.c:387-403 | a stop that returns leaves its config unflagged and unlisted, whatever other threads do |
| RegistryInterleaving.StartCompletes | master/monitor.c:366-384 | a start that succeeds leaves its config flagged, and listed exactly when the list had room |
| RegistryInterleaving.StepKeepsInv | master/monitor.c:28-403 | every locked region keeps flags, list and the found contexts in agreement |
| ConfigTokens.SafeStrcpy | master/config.c:8-12 | the buffer holds the text cut to its capacity |
| ConfigParser.Parser.Store | master/config.c:84-154 | the chain of comparisons sets the setting of the section and name, if there is one, and leaves every other setting as it is |
| ConfigParser.Parser.Parse | master/config.c:30-210 | success exactly when the stream ends and the required settings are there; on the tokens of a document tree every setting is the last value at its place, cut to its capacity, or its default; the level is 0 to 3 for "debug", "info", "warn" and "error", and 1 otherwise |
| ConfigReading.NodeIsRead | master/config.c:69-188 | from any place in a document, the tokens of any node, mappings of any depth and all kinds of sequences included, store its values in order, each under the section and name of its place, and leave the reader at the place after the node |
| ConfigReading.HeldLeaves | master/config.c:69-188 | when no section is ended early, these are the values of the simple meaning: inside a section the nearest key, at any depth; outside, the key, and a mapping under the name of a section opens it |
| ConfigReading.DepthIsNet | master/config.c:156-181 | on any tokens the depth moves by the starts of mappings less the end tokens |
| ConfigReading.PlaceAfter | master/config.c:156-181 | from any state, a node moves the depth up by its indented block sequences, and a section stays open exactly if it was opened at least as many levels above |
| ConfigReading.PlaceComesBackIff | master/config.c:156-181 | the depth comes back exactly when the node has no indented block sequence, the section exactly when it has no more of them than there are levels to the section's own |
| ConfigReading.SectionIsHeldIff | master/config.c:156-181 | the mapping of a section holds it open up to its own end exactly when it has no indented block sequence in it; afterwards the reader is outside in any case |
| ConfigReading.SectionIsEnded | master/config.c:156-181 | a node with more indented block sequences than the open section has levels left ends it |
| ConfigReading.SettingAfterSequenceIsLost | master/config.c:126-181 | a setting that follows such a node in its section is read outside, and lost unless its name means something there |
| ConfigReading.DocumentIsRead | master/config.c:30-210 | any document gives every setting the last value at its place, cut to its buffer, and defaults elsewhere, and ends outside of all sections |
| ConfigReading.CalmDocumentIsRead | master/config.c:30-210 | a document whose sections are not ended early gives every setting its last value in the simple meaning |
| ConfigTree.LastValueIsLast | master/config.c:84-154 | the value of a setting is that of the last leaf under its section and name |
| ConfigTree.LastValuesAreStored | master/config.c:84-154 | storing values in order leaves the last one of each setting |
| ConfigTree.MeaningHolds | master/config.c:84-154 | the stored settings one by one, with their capacities, defaults and numbers: the texts are cut, the port is what atoi reads, the levels are 0 to 3 |
| ConfigReading.CutNamesMeanTheSame | master/config.c:84-130 | cutting a name to its buffer does not change what it means |
| ConfigTree.ChangesNothingIff | master/config.c:84-154 | a part of a document changes nothing, whatever the configuration was, exactly when no value in it stands under the name of a setting in its section |
| ConfigTree.UnknownSectionsAreIgnored | master/config.c:126-172 | so unknown top-level entries that hold no setting can be struck out |
| ConfigTree.ForeignHasNoSettings | master/config.c:126-172 | an unknown entry that reuses no recognised name holds none, and may hold indented block sequences |
| ConfigTree.ForeignIff | master/config.c:126-153 | such an entry is one without a recognised name among all keys below it |
| ConfigTree.ReusedNamesAreTaken | master/config.c:126-153 | without that restriction they cannot |
| ConfigRoundTrip.ConfigReadsBack | master/config.c:30-210 | a configuration written out as a document is read back exactly when its texts fit the buffers and its level is that of its text; otherwise what is read is what the buffers keep |
| Netmask.MaskLoop | master/openvpn.c:133-136 | the loop that sets bits builds the word of n leading ones, one bit at a time |
| Netmask.LoopFormIsShiftForm | master/openvpn.c:133-405 | the loop and the shift form build the same mask, for every length and width |
| Netmask.ShiftFormIsMask | master/openvpn.c:405 | the shift form is the word of n leading ones |
| Netmask.AddBits | web/routes/configs.py:112-117 | the loop counts the leading ones |
| Netmask.XorWithPredecessor | web/routes/configs.py:221 | the length of x ^ (x - 1) is one more than the position of the lowest one |
| Netmask.AddAgainstEdit | web/routes/configs.py:103-222 | for every number the exact relation of the two prefix computations: equal only on zero, one less on a mask, more on any other word, negative against zero beyond the width |
| Netmask.MasksAreContiguous | web/routes/configs.py:112-117 | the case "one less" is exactly that of contiguous masks |
| Netmask.PrefixOfMask | web/routes/configs.py:103-222 | for every mask the add form gives its length and the edit form one less, unless it is zero |
| Netmask.PoolAddressStaysIn | master/openvpn.c:409-414 | for any mask, an end of the pool stays in the subnet exactly when its bits under the mask are set in the server address |
| Netmask.PoolUnderPrefix | master/openvpn.c:399-414 | for a prefix, only the bits above the host part decide |
| Netmask.PoolOfShortPrefix | master/openvpn.c:399-414 | up to 24 bits the pool is network + 100 to network + 200: ordered, inside, and clear of the network and broadcast addresses |
| Netmask.PoolWithSevenHostBits | master/openvpn.c:409-414 | under a /25 the last address stays in only for servers in the upper half |
| MaskText.CidrToNetmask | master/openvpn.c:91-142 | network part and mask text for every input, a bare mask, a bare address and an impossible length included |
| MaskText.BareText | master/openvpn.c:103-115 | a text without a slash that starts with a number and a dot is the mask when the number is positive, and else the network |
| MaskText.BareNetwork | master/openvpn.c:103-115 | a text without slash and dot is the network |
| MaskText.DottedReadsBack | web/routes/configs.py:97-110 | the dotted text of a word is recognised and read back as that word |
| MaskText.MaskRoundTrip | web/routes/configs.py:93-222 | a mask entered in the add form comes out of the core as it was entered; after an edit it is one bit shorter, unless it was zero |
| MaskText.StoredLengths | web/routes/configs.py:112-222 | what the forms store for a dotted mask is the server address, a slash, and the length of their computation, which reads back as that number, negative ones included |
| MaskText.DottedHasFourGroups | web/routes/configs.py:93-94 | a text taken as a mask is four groups of one to three digits with dots between them |
| MaskText.FourGroupsAreDotted | web/routes/configs.py:93-94 | and every such text is taken |
| MaskText.CidrIsAddressAndLength | web/routes/configs.py:93-94 | a text is taken as address and length exactly when it is a dotted address, a slash and one or two digits |
| MaskText.CidrIsStored | web/routes/configs.py:126-225 | a mask entered as address and length is stored as entered, by both forms |
| MaskText.OtherMasksAreRefused | web/routes/configs.py:126-225 | other texts are refused, except that an edit stores an empty one |
| MaskText.PoolOfStoredMask | master/openvpn.c:390-420 | the stored form of a mask and its dotted text give the same pool |
| MaskText.PoolEnds | master/openvpn.c:409-420 | both ends of the pool, bit by bit for any mask: the network bits of the server and the bits of 100 and of 200; each stays in the subnet exactly when its own bits under the mask are set in the server address |
| MaskText.NoPool | master/openvpn.c:390-407 | there is no pool exactly without a server address, or when the mask is no address and has no length from 0 to 32 behind its first slash |
| CertHandlers.Server.HandleGenerateCaCert | master/ca_handler.c:20-132 | keeps the invariant of the tables; a new CA is self-signed, with the name and serial number that were asked for, its own key and digest, and no other row is touched |
| CertHandlers.Server.HandleSignServerCert | master/ca_handler.c:134-282 | keeps the invariant; succeeds exactly when the CA is found and the statements succeed, also for a configuration that does not exist; the configuration gets the certificate and fingerprint of the CA and a server certificate for the requested name and serial number that this CA signed, and no other one is touched |
| CertHandlers.Server.HandleDeleteCaCert | master/ca_handler.c:334-412 | the CA goes exactly when it is found, is not found to be in use, and the statements succeed; every fingerprint that resolved still does, exactly unless the query for references failed on the only CA of a configuration |
| CertHandlers.Server.HandleGenClientCert | master/client_handler.c:19-263 | keeps the invariant; issues exactly when the configuration has a fingerprint that resolves and the queries and statements succeed, and then for the requested name and serial number with the key of the certificate that is the issuer; the profile of this user and configuration holds that certificate and key afterwards, on the first issue too, and every other profile and user is as before |
| CertHandlers.Server.HandleRevokeClientCert | master/client_handler.c:335-404 | keeps the invariant; what is reported is recorded with the serial number of the held certificate, exactly when the profile is found and the insert succeeds; the profile is marked exactly when the unchecked statement succeeds or it was marked before |
| CertHandlers.Server.FindRow | master/client_handler.c:200-206 | the one profile of a user and a configuration, or the next number when there is none |
| CertLifecycle.FingerprintsResolve | master/ca_handler.c:209-242 | in every reachable state a configuration with a fingerprint holds the certificate of that fingerprint and a server certificate signed by it, and every CA with the fingerprint has that certificate and its key; unless a deletion lost it, such a CA exists |
| CertLifecycle.ClientsAreSignedByTheirIssuer | master/client_handler.c:41-136 | in every state that satisfies the invariant, a client certificate is signed with the key that belongs to its issuer's certificate, the one that signed the server's |
| CertLifecycle.ClientIsSignedWhen | master/client_handler.c:41-136 | a client certificate is signed exactly when the queries succeed, the configuration exists and has a fingerprint, a CA has that fingerprint, and OpenSSL does its part |
| CertLifecycle.ClientIsRecorded | master/client_handler.c:164-206 | an issued certificate and its key are what the one profile of that user and configuration holds afterwards, and no other profile changes |
| CertLifecycle.CaIsDeletedWhen | master/ca_handler.c:349-404 | a CA is deleted exactly when it is found, the query for references fails or finds no configuration with a fingerprint that holds its certificate, and the rest succeeds |
| CertLifecycle.RequestResolvesIff | master/ca_handler.c:371-404 | a request keeps every fingerprint resolved exactly when it is not the deletion of a CA that a configuration uses, without another row of that fingerprint, after a query for references that failed |
| CertLifecycle.ResolvesThroughoutIff | master/ca_handler.c:20-412 | over any run every fingerprint resolves all the time exactly when there is no such deletion |
| CertLifecycle.FailedCheckLosesCa | master/ca_handler.c:371-404 | a run of four requests after which a configuration has the fingerprint of no CA |
| CertLifecycle.RevocationLasts | master/client_handler.c:200-398 | over any run a revoked profile is gone for good or still revoked, and then it has a revocation row |
| CertLifecycle.ReissueKeepsProfile | master/client_handler.c:164-206 | issuing again replaces certificate and key of the same profile and the email of its user, and nothing else |
| CertLifecycle.RunKeepsInv | master/ca_handler.c:20-412 | after every sequence of requests, whatever fails: CA rows hold their own key and digest, configurations the certificate of their fingerprint, and revoked profiles a revocation row |
| CertLifecycle.ConfigComes | web/routes/configs.py:71-81 | a configuration comes with its certificates and without a fingerprint, and nothing else changes |
| CertLifecycle.ConfigGoes | web/routes/configs.py:254-261 | it goes with its profiles and their revocations, and nothing else goes |
| ConfigPairing.AddKeepsPairingIff | web/routes/configs.py:71-161 | an add request keeps every configuration paired with one extension row exactly when it is not an orphaning one: its row goes in, and either the mode is tun and the mask is true but no string, or it is refused for one of the listed reasons and the compensating delete fails |
| ConfigPairing.OrphansByWay | web/routes/configs.py:82-158 | that condition on the request is what the order of the handler's tests comes to |
| ConfigPairing.ListForAMaskOrphans | web/routes/configs.py:90-101 | a list for a mask is enough to break the pairing, in any state |
| ConfigPairing.AddIsAllOrNothing | web/routes/configs.py:71-161 | a refused request leaves the tables as they were; an accepted one adds the configuration, with its name and mode, and its row, and changes no other |
| ConfigPairing.AddIsAcceptedWhen | web/routes/configs.py:45-158 | an add request is accepted exactly when name, mode and remote are given, the name is free, the statements succeed, and in tun mode there are an address, a mask of one of the two forms, and lists that are text if they are given |
| ConfigPairing.EditIsDoneWhen | web/routes/configs.py:187-249 | an edit is completed exactly when its statements succeed and in tun mode the mask is missing, empty or of one of the two forms, and the lists are text if they are given |
| ConfigPairing.AddedMaskReachesCore | web/routes/configs.py:101-138 | the mask of an accepted request, entered as dotted text, is what the core writes into the configuration file |
| ConfigPairing.AddedTunRow | web/routes/configs.py:129-138 | an accepted tun request has a mask that is text, stores the server address, and a mask of address and length as entered |
| ConfigPairing.AddedTapRow | web/routes/configs.py:143-154 | an accepted tap request stores its address and mask, and NULL for what is empty or missing |
| ConfigPairing.EditedRow | web/routes/configs.py:187-249 | a completed edit stores the name, and the address and mask as entered or NULL where they are missing in tap mode; no other configuration changes |
| ConfigPairing.EditedMaskReachesCore | web/routes/configs.py:210-237 | a dotted mask of a completed edit reaches the core one bit shorter, unless it is zero |
| ConfigPairing.EditKeepsRows | web/routes/configs.py:191-250 | an edit adds and removes no row and changes no mode, whatever fails on the way |
| ConfigPairing.DeleteKeepsPairing | web/routes/configs.py:254-261 | a deletion takes the configuration and its extension row, and no other |
| ConfigPairing.PairedThroughoutIff | web/routes/configs.py:71-261 | over any requests the tables are paired all the time exactly when none of them orphans |
| ConfigPairing.StringRequestsStayPaired | web/routes/configs.py:71-261 | masks that are strings and compensating deletes that succeed keep every state paired |
| ConfigPairing.Tables.AddConfig | web/routes/configs.py:45-161 | on every path: an accepted request adds the configuration and its row, a refused one leaves the tables as they were unless it orphans, and the tables stay paired exactly when it does not |
| ConfigPairing.Tables.EditConfig | web/routes/configs.py:187-252 | on every path, partial updates included, the tables stay paired, with the same rows |
| SqlEscape.EscapeSqlString | master/cert_utils.c:175-194 | the buffer is filled with the escaped string, exactly as far as the counting pass allocated |
| SqlEscape.EscapedIsOneLiteral | master/cert_utils.c:183-192 | between quotes, the escaped string is one SQL literal whose value is the string (ISO/IEC 9075-2, section 5.3) |
| SqlEscape.UndoublingRecovers | master/cert_utils.c:183-192 | undoubling the quotes gives the string back |
| SqlEscape.QuotesComeInPairs | master/cert_utils.c:183-192 | every quote of the output belongs to a doubled pair |
| SqlEscape.PairedStringsAreEscaped | master/cert_utils.c:183-192 | the strings with paired quotes are exactly the escaped ones |

## Left out

- MonitorRegistry.MonitorRegistry.GetCtx: contexts are objects with a stable identity; the code keeps them in an array that `realloc` may move (master/monitor.c:36) while threads hold pointers into it, and the model does not capture that.
- RegistryInterleaving.RegistryAgrees: calls for one config are serialised, as the theorem needs; two calls for the same config at once are not modelled. The flag is read and written in atomic steps. A monitor thread that ends by itself leaves its flag set (master/monitor.c:293-303); flags are modelled, not threads.
- LogRedaction.MaskSensitive: demands a buffer with room for the longest intermediate text; `log_message` calls the scan on a buffer of 4096 bytes without such a check, and `LogRedaction.FullMessageDoesNotFit` shows that it matters.
- IdList.BuildIdList: demands that the literal fits its 1024 bytes, as the buffer does.
- Sessions.SessionTable.UpdateSessions: demands that the array literal fits its 1024 bytes, which the code does not check; `IdList.LiteralFits` says exactly when it does.
- StatusDump.ParseLine: the connection time is kept as text; `strptime` and its fallback to the present time are not modelled, nor is the column `last_update`.
- Sessions.Resolve: row ids are positions in the table. The user reference that a deletion sets to NULL is not modelled.
- ConfigReading.NodeIsRead: keys are scalars with a value token; mappings as keys, single pairs in flow sequences and flow-mapping keys without a value (`{a, b}`, which the scanner delivers as a bare scalar) are outside of the trees. The scanner itself is libyaml's.
- ConfigParser.Parser.Parse: `atoi` is unbounded; overflow is undefined in C.
- MaskText.MaskRoundTrip: PostgreSQL may refuse an address with host bits set as a `cidr`; that is not part of this model. Digits are ASCII, and a trailing newline, which the regular expressions let through, is not considered.
- MaskText.PoolOfStoredMask: the results of `inet_aton` are inputs.
- CertLifecycle.FingerprintsResolve: requests are atomic; a deletion between the statements of a signing request is not considered.
- ConfigPairing.Tables.AddConfig: a server address that is not a string is stored without its formatting by Python.
- OpenSSL: key generation, signing, encryption and PEM parsing are abstract; time, randomness, sockets, files and processes are inputs.
- "A running status implies a live process" and "a stopped config has no open sessions": both are false of the code and not claimed.
- JSON dispatch, web routing, login, templates, installers, `fingerprint_to_hex`, `format_bytes` and the chart queries would only add easy members.
