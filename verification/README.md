# tt-station: verified model

A Dafny model of the parts of tt-station where state, parsing or merging is intricate enough that
reading one function does not tell you whether it is right. Each module models one part of the
Rust source and proves what that part promises, over every input or every run.

`dafny verify dfyconfig.toml` checks the whole project.

## What is modelled

**Chip leases** (`crates/tt-station-agentd/src/gozer.rs`). The agent shares a box's accelerator
chips with other tenants through a lease manager, gozer.
- `Holders`: the `tt-station:<port>:<model>` text that marks a lease, and the two ways the agent
  recognises its own (a parsed port, and a text prefix).
- `LeaseHistory`: the fold of gozer's event log into the open leases, against "the last record that
  touches this id opens it", and what reading only the end of the log can miss.
- `StartupSweep`: the sweep that releases leases nothing serves on, as loops, with its accounting.
- `LatestRecord`: the leases the sweep's comment describes against those its loop asks for.
- `HistoryWindow`: what becomes of a lease whose opening is no longer in the log that is read.
- `SweepProtocol`: the same sweep as a state machine in which other tenants' grants, adoptions,
  releases and reaps, and containers coming and going, fall between any two of its steps. Leases have
  serials there, so an id used again is told apart from the lease it named before.
- `SweepLimits`: how the others can bring the sweep to take a lease it never saw, or one that serves.
- `LeaseGuard`: acquiring a lease, and the guard that releases it on drop unless disarmed, as objects.
- `GuardProtocol`: several of those guards at once, with everybody else opening, adopting and ending
  leases in between, and the objects carrying out whole runs.
- `ChipReset`: what a lease-scoped reset may name, and what stops a whole-box reset.

**Logs** (`crates/tt-station-agentd/src/logs.rs`). `LogFile` is the resumable reader under any
schedule of appends and polls, and the one-shot tail; `LogStream` is the stream that replays the tail and then
follows; `Redaction` is the three masking passes, and `SplitLine` is redaction of a line sent in two parts.

**Run options** (`crates/libttstation/src/run_options.rs`). `RunOptions` validates and prints,
`ServeCommand` reads the printed command line back, `RunSchema` relates the advertised schema to
the validator, and `RunRules` tells each rule by its characters, limits and flags.

**Catalog** (`crates/libttstation/src/catalog.rs`). `CatalogNames` (keys and meshes),
`CatalogDedupe` (collapsing twin rows), `CatalogClassify` (the three tiers) and `CatalogEntries` (the
tier rule, the merged row and the entries, told on their fields).

**Telemetry** (`crates/tt-station-agentd/src/inference.rs`). `MediaMetrics` sums each series once and
`MediaLines` says which line feeds which counter; `InferenceSampler` folds scrapes into rates, deltas and
averages, and `SamplerReports` says what one report holds.

**Keys** (`crates/tt-station-agentd/src/authkeys.rs`). `AuthorizedKeys` edits one shared file in place.

**Discovery records** (`crates/libttstation/src/model.rs`). `TxtRecord` prints and reads the key/value
records of section 6 of RFC 6763; an absent optional key stands for an absent field (section 6.4).

The definitions everything else is measured with are themselves pinned to characters, numbers and words by
small lemmas without a row below: `RunRules.DeviceNames` and its three siblings, `RunRules.BareCommand`,
`CatalogNames.HardwareTable` and `PlainHardware`, `ChipReset.ClauseNames`, `TxtRecord.WhatIsRead`,
`SweepProtocol.LastRecordsAreLast` and `OthersAreFree`, `Decimal.Widths`, `Text.WhiteCharacters`,
`CaseOfAscii` and `TrimOf`.

`Text`, `Decimal`, `Seqs` and `Wrappers` hold splitting, trimming, finding, decimal numbers and
order-preserving selection, with the laws the other modules use.

## Where the code differs from what is said about it

- The sweep's comment (gozer.rs:919-921) speaks of "the latest `granted`/`adopted` record for that exact
  `who` with no later `released`/`reaped` for the same id". The loop (gozer.rs:998-1043) acts on every open id
  whose holder is live. The two come to the same leases exactly when no stale live holder has two leases
  open and none has its latest id in another's hands: `LatestRecord.LatestRecordRule`, with
  `LatestRecord.BothGrantsReleased` and `LatestRecord.TakenOverIsNamed` for the two ways they differ.
- A lease whose grant fell off the log that is read is said to become unresolved (gozer.rs:875-878). It does
  exactly when nothing else is open under its holder in what was read; otherwise it is passed over in
  silence: `HistoryWindow.HiddenLease`, `HistoryWindow.HiddenInSilence`.
- main.rs:722-732 argues that a sweep overrunning its time limit can only release leases that were
  stale when it started, and none acquired later. gozer reuses lease ids (gozer.rs:1065-1067), so a release
  meets the lease that was read exactly when its id was not opened again in between, and a lease that was
  live at the docker read exactly when the id was not opened after that:
  `SweepProtocol.SweepTakesOnlyStaleLeases`, `SweepProtocol.DockerReadDecides`. The same holder text is not
  enough: `SweepLimits.RestartedServeIsTaken`. From every state with a stale lease still to be looked at the
  claim can be made to fail: `SweepLimits.ReopenedIsTaken`.
- Docker is read first, so "nothing serves on this port" is about that moment only. A port is served at the
  release only if a server came up on it since (`SweepProtocol.DockerReadDecides`), and one can come up in
  every such state (`SweepLimits.ServedLeaseIsTaken`, `SweepLimits.LateStarterIsTaken`).
- A guard releases by id (gozer.rs:1486). When its lease was reaped or released by hand and the id granted
  again, the drop ends the new lease: `GuardProtocol.DropTakesAnother`, `GuardProtocol.StrangerIsTaken`. Serves
  that merely overlap never do this to each other: `GuardProtocol.UndisturbedLoseNothing`.
- The sweep parses the port, which accepts a leading plus sign, and wants a model after it; the whole-box
  guard compares text. `Holders.GuardMeaning` and `Holders.GuardAndSweepAgree` say exactly when they agree;
  `Holders.SignedPortDivides` and `Holders.EmptyModelDivides` are holders on which they do not.
- The log stream replays the tail and then follows from the file's length (routes.rs:2557-2571). When the
  file does not end in a newline at that moment, a line is sent in two parts, and what is written between
  the two reads is missed. When any line is not UTF-8 the tail cannot be read, nothing is replayed, and the
  offset still moves to the end: `LogStream.StreamIsExact`, `LogStream.UnfinishedLineIsSplit`,
  `LogStream.BadLineIsLost`. Each message is redacted on its own, so a token can go out in two parts:
  `SplitLine.SplitLineHides`, `SplitLine.CutTokenShows`.
- Only the first `Bearer ` marker of a line is treated, and a short token there shields a long one later:
  `Redaction.LaterBearersStay`, `Redaction.SecondBearerSurvives`.
- `authorize` appends without looking at the file's last byte (authkeys.rs:208-212), so an unfinished last
  line and the new key become one line: `AuthorizedKeys.AuthorizeNeedsClosedFile`. Rewriting drops a
  carriage return before a newline, and loses one blank line when it is all that is left, against
  "preserved verbatim" (authkeys.rs:279-281):
  `AuthorizedKeys.IdleRevokeKeepsBytes`, `AuthorizedKeys.ForeignLinesOutliveEdits`,
  `AuthorizedKeys.RevokeUndoesAuthorize`. `AuthorizedKeys.UnfinishedLineIsGlued`,
  `AuthorizedKeys.IdleRevokeClosesLine` and `AuthorizedKeys.LoneNewlineIsLost` are the smallest such files.
- The sampler keeps one baseline per server flavour but one clock for both (inference.rs:687-694,
  739-748). Deltas are right in mixed runs. Rates are never too low, and they are right exactly when every
  tick that brought something found the clock at its own flavour's last scrape:
  `InferenceSampler.RatesTelescope`, with `InferenceSampler.MixedRunOverstates` for the rest.
- The run schema is said not to drift from the validator (run_options.rs:561-562). It does not show the
  shape of free text, nor that a flag may be given only once; that is exactly what is missing:
  `RunSchema.OfferedOptionsServe`, with `RunSchema.OneLetterDevice` and `RunSchema.RepeatedFlagOffered`. What is
  accepted is always offered: `RunRules.AcceptedIsOffered`.
- `classify` lists a live model exactly once (catalog.rs:368-377) when the catalog matches it. Live models
  the catalog does not know are listed once each even when they share a key:
  `CatalogClassify.NoModelTwice`, `CatalogClassify.SharedKeyListedTwice`.

## Assumptions

- gozer writes each of its grants, adoptions, releases and reaps to its log. This is
  `SweepProtocol.Faithful`, required only of the initial state and proved of every later one.
- An acquire is never answered with an id that is live; ids that are free again may come back
  (`LeaseGuard`, `GuardProtocol`).
- What a command answers (readable or not, exit code, records) is a parameter, and so are the clock, the
  platform's number parser and whether bytes are valid UTF-8.
- In `CatalogDedupe` and `CatalogClassify` the key, mesh and software rules are parameters, so the results
  hold for any of them; `CatalogClassify.ClassifyForBox` puts in the ones of `CatalogNames`.

## Model

| member | source | states |
|---|---|---|
| Holders.WhoRoundTrip | crates/tt-station-agentd/src/gozer.rs:783-803 | a written holder parses back to its port and model, colons in the model included; an empty model is refused |
| Holders.OwnPrefixIdentifies | crates/tt-station-agentd/src/gozer.rs:1336-1353 | a holder written for port q starts with the own-prefix of p exactly when p is q |
| Holders.GuardMeaning | crates/tt-station-agentd/src/gozer.rs:1336-1353 | for every holder text, the guard takes it for the agent's own exactly when the sweep reads the own port out of it in canonical spelling, or nothing follows the prefix |
| Holders.GuardAndSweepAgree | crates/tt-station-agentd/src/gozer.rs:794-803 | for every holder text, the prefix test and the parsed port agree exactly when the model is not empty and the port is not an unusual spelling of the own one |
| Holders.SignedPortDivides | crates/tt-station-agentd/src/gozer.rs:794-802 | `+8080` is the agent's own port to the sweep and a stranger's to the guard |
| Holders.EmptyModelDivides | crates/tt-station-agentd/src/gozer.rs:797-801 | without a model the guard takes the holder for its own and the sweep cannot read a port |
| LeaseHistory.OpenLeasesFromHistory | crates/tt-station-agentd/src/gozer.rs:1068-1115 | the push, overwrite and retain loop computes the fold; an unreadable history gives nothing |
| LeaseHistory.OpenLeasesMeaning | crates/tt-station-agentd/src/gozer.rs:1060-1067 | ids are unique, and a lease is listed exactly when the last record touching its id opens it under that holder |
| LeaseHistory.OpenLeasesOrder | crates/tt-station-agentd/src/gozer.rs:1096-1114 | the vector's order is the order in which the current openings began |
| LeaseHistory.OpeningRecordOpens | crates/tt-station-agentd/src/gozer.rs:1097-1107 | after a granted or adopted record the lease is open under the holder it names, or under none |
| LeaseHistory.ClosingRecordCloses | crates/tt-station-agentd/src/gozer.rs:1109-1109 | after a released or reaped record it is not |
| LeaseHistory.OtherRecordsIgnored | crates/tt-station-agentd/src/gozer.rs:1097-1112 | a record of another event, or without an id, changes nothing |
| LeaseHistory.HolderAfterWindow | crates/tt-station-agentd/src/gozer.rs:872-878 | a record inside the window decides; otherwise the log before it does |
| LeaseHistory.WindowUnderReports | crates/tt-station-agentd/src/gozer.rs:866-879 | a truncated log shows only leases that are open, under the right holder, and misses exactly those opened before it and untouched in it |
| HistoryWindow.HiddenLease | crates/tt-station-agentd/src/gozer.rs:872-878 | an open lease that the log read does not show is never asked for, and its live holder is reported exactly when nothing else is open under that holder in what was read |
| HistoryWindow.HiddenInSilence | crates/tt-station-agentd/src/gozer.rs:872-878 | with a second lease of the holder inside the window, the hidden one is neither asked for nor reported |
| StartupSweep.LiveHolders | crates/tt-station-agentd/src/gozer.rs:978-989 | the holders starting with `tt-station:` of chips whose state is not FREE, each once |
| StartupSweep.ActOnOpen | crates/tt-station-agentd/src/gozer.rs:997-1043 | which leases are kept, adopted, reported and asked for, and the release commands in order |
| StartupSweep.ReportUnnamed | crates/tt-station-agentd/src/gozer.rs:1045-1055 | exactly the live holders no open lease names, in order |
| StartupSweep.Sweep | crates/tt-station-agentd/src/gozer.rs:938-1058 | the whole sweep, on the chips and records read: a lease is asked for exactly when it is open, a chip that is not free shows its holder and that holder names a port not in use; it is released when gozer answers 0 or 13; which leases are kept, adoptable and unresolved; and an unreadable read, or only free chips, releases nothing |
| StartupSweep.ReportReleased | crates/tt-station-agentd/src/gozer.rs:1036-1042 | released is the stale leases gozer let go of (exit 0 or 13), in order |
| StartupSweep.ReportKept | crates/tt-station-agentd/src/gozer.rs:1013-1031 | kept is the leases on a port in use, in order |
| StartupSweep.ReportAdoptable | crates/tt-station-agentd/src/gozer.rs:1018-1028 | adoptable is the leases on the agent's own port while it is in use |
| StartupSweep.AdoptableAreKept | crates/tt-station-agentd/src/gozer.rs:1018-1030 | adoptable is exactly the kept leases that name the agent's own port, in order |
| StartupSweep.ReportUnresolved | crates/tt-station-agentd/src/gozer.rs:1005-1012 | a live holder without a readable port is reported for each of its leases |
| StartupSweep.EachLeaseOnce | crates/tt-station-agentd/src/gozer.rs:998-1043 | an open lease under a live holder is in exactly one of released, refused, kept and portless, and commands go to exactly the first two |
| StartupSweep.CountsAddUp | crates/tt-station-agentd/src/gozer.rs:998-1043 | the four groups together have as many members as there are open leases under live holders |
| StartupSweep.EveryHolderAnswered | crates/tt-station-agentd/src/gozer.rs:1045-1055 | every live holder either owns an open lease or is reported as having none |
| StartupSweep.AllIdsOfAHolderTogether | crates/tt-station-agentd/src/gozer.rs:998-1013 | the open ids of one holder are all asked for or none is |
| LatestRecord.AskedAreCalled | crates/tt-station-agentd/src/gozer.rs:998-1043 | the releases issued are those of the open leases of stale live holders |
| LatestRecord.LatestRecordRule | crates/tt-station-agentd/src/gozer.rs:919-923 | the loop and the comment's rule (the latest granted or adopted record of each stale live holder with no later closing one) come to the same leases exactly when no such holder has two leases open and none has its latest id in another's hands |
| LatestRecord.DocumentedAreAsked | crates/tt-station-agentd/src/gozer.rs:919-923 | the loop asks for all that the rule names exactly when no such id is in another's hands |
| LatestRecord.BothGrantsReleased | crates/tt-station-agentd/src/gozer.rs:998-1043 | two grants to one stale live holder: both are released, where the rule names the later |
| LatestRecord.TakenOverIsNamed | crates/tt-station-agentd/src/gozer.rs:1065-1067 | an id adopted by another holder: the rule still names it for the first one, and the loop leaves it alone |
| SweepProtocol.KeepsFaithful | crates/tt-station-agentd/src/gozer.rs:872-878 | whatever gozer, its tenants or the sweep does, the log keeps accounting for the live leases |
| SweepProtocol.KeepsInvariant | crates/tt-station-agentd/src/gozer.rs:908-931 | every step of every party keeps the protocol invariant |
| SweepProtocol.AlwaysInvariant | crates/tt-station-agentd/src/gozer.rs:908-931 | so every run keeps it |
| SweepProtocol.SweepTakesOnlyStaleLeases | crates/tt-station-agentd/src/main.rs:722-732 | in every interleaving, the id of a lease the sweep took was live at the history read under a station holder whose port was absent from the docker read; it was that very lease, never ended in between, exactly when the id was not opened again |
| SweepProtocol.DockerReadDecides | crates/tt-station-agentd/src/gozer.rs:908-918 | the lease taken was live at the docker read exactly when its id was not opened after it, and its port is served at the release only if a server came up on it after that read |
| SweepProtocol.RemovalsAreTheWholeEffect | crates/tt-station-agentd/src/gozer.rs:998-1043 | the recorded removals are exactly the sweep's effect on the live leases |
| SweepProtocol.OthersKeepTheirs | crates/tt-station-agentd/src/gozer.rs:915-931 | a step of the sweep ends a lease exactly when it is the stale one whose turn it is and gozer agrees; unless the id was opened or adopted since, its own holder is then a stale one |
| SweepProtocol.CallsAreSettled | crates/tt-station-agentd/src/main.rs:728-732 | nothing the others do after the reads changes which releases are asked for; they follow from the records, holders and ports that were read |
| SweepProtocol.SweepAgain | crates/tt-station-agentd/src/gozer.rs:938-1058 | run undisturbed on the same docker and history reads, and on any status showing the leases there were at the status read, the sequential sweep finds the same holders and issues the same releases |
| SweepProtocol.StatusShowsHolders | crates/tt-station-agentd/src/gozer.rs:978-989 | in a status where the chips of each live lease carry its holder and all others are free or without one, the holders shown are exactly the station holders of the live leases |
| SweepProtocol.UnreadableTakesNothing | crates/tt-station-agentd/src/gozer.rs:938-977 | over every run in which a docker, status or history read failed, no release is asked for and no lease is taken |
| SweepLimits.ReopenedIsTaken | crates/tt-station-agentd/src/gozer.rs:1065-1067 | in every state with a stale lease still to be looked at, granting its id anew to anyone makes the sweep take the new lease |
| SweepLimits.ServedLeaseIsTaken | crates/tt-station-agentd/src/gozer.rs:908-918 | in every such state, a server coming up on the port makes the sweep take the lease while it is served |
| SweepLimits.ReusedIdIsTaken | crates/tt-station-agentd/src/gozer.rs:1065-1067 | a run in which a tenant loses a lease granted after the history read |
| SweepLimits.RestartedServeIsTaken | crates/tt-station-agentd/src/main.rs:727-731 | a run in which the agent's own fresh serve, same holder text and already up, loses the lease it was just granted |
| SweepLimits.LateStarterIsTaken | crates/tt-station-agentd/src/gozer.rs:908-918 | a run in which a lease granted and served after the docker read is released while it serves |
| LeaseGuard.Gozer.Release | crates/tt-station-agentd/src/gozer.rs:484-535 | what a release changes: a refused one nothing, any other exactly that lease |
| LeaseGuard.Guard.IntoLeaseId | crates/tt-station-agentd/src/gozer.rs:1467-1473 | disarms and hands the id over |
| LeaseGuard.Guard.Drop | crates/tt-station-agentd/src/gozer.rs:1476-1493 | releases exactly the guarded lease while armed, and nothing once disarmed |
| LeaseGuard.AcquireForServe | crates/tt-station-agentd/src/gozer.rs:1518-1579 | an armed guard for a fresh lease under `tt-station:<port>:<model>` exactly when leasing is on and gozer grants one, forced or not; otherwise no change; no lease is an error exactly when leasing is on and the serve is not forced, and the answer decides which |
| GuardProtocol.KeepsInvariant | crates/tt-station-agentd/src/gozer.rs:1440-1493 | every step of any guard or of anyone else keeps the accounts: a lease of the agent ends by being given back or by another hand, and an id is used again only once it is free |
| GuardProtocol.LeasesConserved | crates/tt-station-agentd/src/gozer.rs:1440-1493 | over every run of overlapping serves with others opening, adopting and ending leases, the agent's live leases are those guarded, handed over or refused, except the ones ended by another hand |
| GuardProtocol.UndisturbedLoseNothing | crates/tt-station-agentd/src/gozer.rs:816-820 | while nobody else ends a lease, overlapping serves never end each other's and every drop ends its own |
| GuardProtocol.DropTakesAnother | crates/tt-station-agentd/src/gozer.rs:1476-1493 | a drop ends its own lease exactly when that is live, another's exactly when the id was closed and opened again under it, and otherwise nothing |
| GuardProtocol.StrangerIsTaken | crates/tt-station-agentd/src/gozer.rs:484-500 | any guard can be brought to it: its lease is reaped, its id granted to a tenant, and the drop ends the tenant's lease |
| GuardProtocol.KeptLeaseIsNotReissued | crates/tt-station-agentd/src/gozer.rs:1065-1067 | while a lease has not ended its id is not used for another |
| GuardProtocol.HandedOverOnce | crates/tt-station-agentd/src/gozer.rs:1467-1482 | a lease handed over stays so through every later run, and its guard's drop never ends a lease |
| GuardProtocol.DoAcquire | crates/tt-station-agentd/src/gozer.rs:1518-1541 | acquiring with the real objects is the protocol's step |
| GuardProtocol.DoHandOver | crates/tt-station-agentd/src/gozer.rs:1467-1480 | disarming and the drop that follows is the protocol's step, and hands out the guarded id |
| GuardProtocol.DoDrop | crates/tt-station-agentd/src/gozer.rs:1476-1493 | dropping an armed guard is the protocol's step |
| GuardProtocol.DropOutcome | crates/tt-station-agentd/src/gozer.rs:1476-1493 | a dropped guard keeps its lease exactly when one is live under its id and the release is refused; no other guard is touched |
| GuardProtocol.ServeAll | crates/tt-station-agentd/src/gozer.rs:1440-1579 | a whole run carried out by the objects ends with the leases of the protocol's state, and hands out exactly the ids handed over there |
| ChipReset.ResetTarget | crates/tt-station-agentd/src/gozer.rs:234-253 | a target is built exactly from a non-empty grant of PCI addresses |
| ChipReset.BdfIsItsShape | crates/tt-station-agentd/src/gozer.rs:256-280 | the field-by-field reader accepts exactly the twelve-character form |
| ChipReset.TargetNamesTheGrant | crates/tt-station-agentd/src/gozer.rs:225-253 | a target is never empty and reads back as exactly the granted chips |
| ChipReset.ForeignLeasesOf | crates/tt-station-agentd/src/gozer.rs:1326-1381 | the verdict is none exactly when status was read and every held chip with a holder carries the own prefix; otherwise it lists the distinct clauses in order, and each address of a foreign chip once |
| ChipReset.GuardReset | crates/tt-station-agentd/src/gozer.rs:1160-1187 | an unforced reset is refused, and a forced one logged, exactly when the status could not be read or a chip that is not free has a holder not starting with `tt-station:<own port>:`; otherwise it proceeds silently |
| LogFile.ReadNewLines | crates/tt-station-agentd/src/logs.rs:83-113 | the complete lines after the offset, and the offset just past the last of them; past the end it clamps |
| LogFile.TailLines | crates/tt-station-agentd/src/logs.rs:70-81 | the last lines of the file, or failure when any line is not valid text |
| LogFile.ClosedLine | crates/tt-station-agentd/src/logs.rs:70-113 | a newline byte closes a line for both readers, and only the tail drops a carriage return before it |
| LogFile.OpenLine | crates/tt-station-agentd/src/logs.rs:70-113 | what is not closed yet is no line for the resumable reader and the last line of the tail, as it is |
| LogFile.PollOnce | crates/tt-station-agentd/src/logs.rs:86-113 | one poll of a follower is one call of the reader at the offset last returned |
| LogFile.FollowKeeps | crates/tt-station-agentd/src/logs.rs:83-113 | every append and every poll keeps the reader at a line boundary with exactly the lines before it emitted |
| LogFile.FollowIsExact | crates/tt-station-agentd/src/logs.rs:83-113 | after any schedule the polls returned exactly the complete lines, none lost, repeated or split, and the offset is zero or just past a newline |
| LogFile.FollowFrom | crates/tt-station-agentd/src/logs.rs:83-113 | the same from any starting offset, about the text after it |
| LogFile.TailAgrees | crates/tt-station-agentd/src/logs.rs:70-113 | one read from zero equals an unlimited tail exactly on newline-terminated files of valid lines without final carriage returns |
| LogStream.Replay | crates/tt-station-agentd/src/routes.rs:2557-2569 | what is replayed: the tail, or nothing when reading it fails |
| LogStream.StreamIsExact | crates/tt-station-agentd/src/routes.rs:2557-2592 | replaying a tail and following from a later length sends the file's lines, over every later schedule, exactly when the tail can be read (or none is asked for), no replayed line loses a carriage return, and the file did not move in between other than by the newline closing its last line |
| LogStream.FailedTailIsLost | crates/tt-station-agentd/src/routes.rs:2559-2571 | a closed file with a line that is not UTF-8 loses its whole tail on every schedule |
| LogStream.BadLineIsLost | crates/tt-station-agentd/src/routes.rs:2559-2571 | the smallest such file: one line of one bad byte |
| LogStream.UnfinishedLineIsSplit | crates/tt-station-agentd/src/routes.rs:2557-2571 | a file of one unfinished character: when the rest of the line follows, it is sent as two lines |
| SplitLine.SplitLineHides | crates/tt-station-agentd/src/routes.rs:2560-2592 | the two parts of a split line, each redacted on its own, hold a token between them exactly when one lies across the joint of what was sent and what follows |
| SplitLine.CutTokenShows | crates/tt-station-agentd/src/routes.rs:2560-2592 | a token cut into two short parts goes out unchanged, though redacting the line would hide it |
| Redaction.MaskPrefixed | crates/tt-station-agentd/src/logs.rs:126-148 | the scan loop terminates and computes the masked text |
| Redaction.RedactLine | crates/tt-station-agentd/src/logs.rs:116-124 | the passes in order: `hf_` and `sk-`, tokens of 20, then the bearer pass |
| Redaction.MaskedIsClean | crates/tt-station-agentd/src/logs.rs:126-148 | a pass leaves no marker followed by a long alphanumeric token |
| Redaction.MaskedStaysClean | crates/tt-station-agentd/src/logs.rs:116-123 | a pass for another marker brings no secret back |
| Redaction.MaskedFixed | crates/tt-station-agentd/src/logs.rs:126-148 | a pass changes a text exactly when it holds such a secret |
| Redaction.MaskedHidesOnlyTokens | crates/tt-station-agentd/src/logs.rs:126-148 | all of the text is kept except whole long tokens after a marker, each of which becomes stars |
| Redaction.TokenHidden | crates/tt-station-agentd/src/logs.rs:126-148 | the first `hf_` or `sk-` with 20 or more ASCII letters and digits after it becomes the marker and three stars, with the rest masked in turn; with fewer the text is kept |
| Redaction.NoTokenShown | crates/tt-station-agentd/src/logs.rs:115-124 | no line that is sent holds `hf_` or `sk-` followed by 20 ASCII letters and digits |
| Redaction.BearerMasked | crates/tt-station-agentd/src/logs.rs:150-166 | after the bearer pass the first marker has no long token, and the pass changes nothing exactly when it had none |
| Redaction.BearerTokenHidden | crates/tt-station-agentd/src/logs.rs:150-166 | the first `Bearer ` token, of ASCII letters, digits, dots, dashes and underscores, is replaced whole from eight characters on, whatever follows it, and a shorter one is kept |
| Redaction.BearerStaysClean | crates/tt-station-agentd/src/logs.rs:121-122 | the bearer pass brings neither token shape back |
| Redaction.RedactedHidesNothing | crates/tt-station-agentd/src/logs.rs:115-124 | the finished line holds none of the secrets of any pass |
| Redaction.RedactFixed | crates/tt-station-agentd/src/logs.rs:115-124 | a line is left alone exactly when there is nothing to hide in it |
| Redaction.RedactIdempotent | crates/tt-station-agentd/src/logs.rs:115-124 | redacting twice is redacting once |
| Redaction.LaterBearersStay | crates/tt-station-agentd/src/logs.rs:115-166 | every bearer token of a redacted line ends up short exactly when the text the bearer pass does not look at had no long one |
| Redaction.LaterBearersOfPlainLine | crates/tt-station-agentd/src/logs.rs:115-166 | on a line without the other two token shapes that condition is about the line itself |
| Redaction.SecondBearerSurvives | crates/tt-station-agentd/src/logs.rs:150-166 | a line whose first bearer token is short keeps a long second one |
| RunOptions.Validate | crates/libttstation/src/run_options.rs:226-274 | accepts exactly the valid options, and names the first bad field: device, profile, a port below 1024, then the flags, each allowed, fitting and given once |
| RunOptions.ToServeArgs | crates/libttstation/src/run_options.rs:276-315 | the printed words, in the fixed order |
| RunOptions.ServeArgv | crates/libttstation/src/run_options.rs:458-466 | the model, the default port unless one is given, then the options |
| RunOptions.ServeArgvFor | crates/libttstation/src/run_options.rs:484-528 | refuses a profile and then flags for the catalog, and a workflow other than the server for a bundle, by field and nothing else; otherwise the command, with `--detach` for bundles |
| RunRules.WholeNumbers | crates/libttstation/src/run_options.rs:384-400 | a number is accepted exactly when it is 1 to 19 digits and nothing else, and its value is in range |
| RunRules.PaddedNumber | crates/libttstation/src/run_options.rs:384-400 | zeros in front of a number change nothing up to 19 digits in all |
| RunRules.AllowedFlags | crates/libttstation/src/run_options.rs:99-115 | each of the seven flags takes exactly its own kind of value, and no other flag is passed through |
| RunRules.WholeCommand | crates/libttstation/src/run_options.rs:276-315 | every option at once, word for word |
| ServeCommand.ReadVllmWords | crates/libttstation/src/run_options.rs:305-313 | the pass-through flags read back in order, because no accepted value starts with a dash |
| ServeCommand.CommandReadsBack | crates/libttstation/src/run_options.rs:458-528 | a left inverse recovers model, effective port, device, profile, offline, workflow and the ordered flags |
| ServeCommand.CommandIsUnambiguous | crates/libttstation/src/run_options.rs:458-528 | two checked requests with one command line ask for the same thing |
| ServeCommand.VllmFlagCounts | crates/libttstation/src/run_options.rs:249-272 | each pass-through flag is printed once |
| ServeCommand.EachFlagOnce | crates/libttstation/src/run_options.rs:276-315 | among words starting with a dash, each requested flag is there exactly once, `--port` always, `--` at most once, and there is no other |
| RunSchema.RunSchema | crates/libttstation/src/run_options.rs:563-638 | the schema is the five top-level options and one entry per allowed flag, in order, and nothing else |
| RunSchema.DigitsFit | crates/libttstation/src/run_options.rs:390-394 | nineteen digits stay within a u64 at every point of reading them |
| RunSchema.IntFlagRange | crates/libttstation/src/run_options.rs:390-399 | the decimal form of a number is accepted exactly when it lies in the flag's range |
| RunSchema.OfferedOptionsServe | crates/libttstation/src/run_options.rs:561-638 | options built from the schema for a target are never refused for it, and validate exactly when free texts have their shape and no flag repeats |
| RunRules.AcceptedIsOffered | crates/libttstation/src/run_options.rs:561-638 | the other way round: whatever is accepted for a target is offered for it, when numbers are written without spare zeros and the workflow is the server |
| RunSchema.OneLetterDevice | crates/libttstation/src/run_options.rs:576-581 | a device of one letter is offered, is not refused and does not validate |
| RunSchema.RepeatedFlagOffered | crates/libttstation/src/run_options.rs:617-635 | a flag given twice is offered, is not refused and does not validate |
| TxtRecord.TxtEncode | crates/libttstation/src/model.rs:443-464 | the pairs advertised, optional ones only when known, and the map a receiver collects from them |
| TxtRecord.StatusRoundTrip | crates/libttstation/src/model.rs:424-441 | reading a status undoes printing it, and a text is read exactly when it is a printed one |
| TxtRecord.RecordRoundTrip | crates/libttstation/src/model.rs:443-515 | every record comes back from what it advertises, absent fields absent |
| TxtRecord.MapRoundTrip | crates/libttstation/src/model.rs:443-515 | a decoded record advertises the map it came from exactly when that map has no other key, states the version and spells both numbers canonically |
| TxtRecord.FieldsRead | crates/libttstation/src/model.rs:466-515 | each field of a record that was read comes from its own key, the version 1 when none is stated |
| AuthorizedKeys.KeyFile.Authorize | crates/tt-station-agentd/src/authkeys.rs:175-218 | validates key and label first, changes nothing when the key is present, else appends the key, a space, `ttstation:` and the label as one line |
| AuthorizedKeys.KeyFile.Revoke | crates/tt-station-agentd/src/authkeys.rs:224-248 | rewrites the file without the matching lines; an absent file stays absent |
| AuthorizedKeys.KeyFile.RevokeAll | crates/tt-station-agentd/src/authkeys.rs:288-328 | removes and counts the marked lines, and leaves the file alone when there is none |
| AuthorizedKeys.AcceptedKeys | crates/tt-station-agentd/src/authkeys.rs:68-123 | the text without the white space around it is accepted exactly when it is one line, begins with a known type, has key material and holds no `PRIVATE KEY`; which refusal comes first |
| AuthorizedKeys.PrivateKeyRefused | crates/tt-station-agentd/src/authkeys.rs:85-100 | a text with `private key` in it, in whatever case, is refused |
| AuthorizedKeys.AcceptedLabels | crates/tt-station-agentd/src/authkeys.rs:137-144 | a label is accepted exactly when it has no white and no control character |
| AuthorizedKeys.RevokedByBlob | crates/tt-station-agentd/src/authkeys.rs:224-267 | after revoking key material no line has it as its second token, and the lines left are the others in order, but for a lone blank line |
| AuthorizedKeys.RevokedByLabel | crates/tt-station-agentd/src/authkeys.rs:224-272 | after revoking a label no line ends in its marker, and the lines left are the others in order, but for a lone blank line |
| AuthorizedKeys.RevokedAll | crates/tt-station-agentd/src/authkeys.rs:288-328 | after revoking all no line ends in a token that starts with `ttstation:`, and the others are left in order |
| AuthorizedKeys.BodyLines | crates/tt-station-agentd/src/authkeys.rs:240-243 | rewriting keeps every line, except when one blank line is all there is |
| AuthorizedKeys.AuthorizeAppends | crates/tt-station-agentd/src/authkeys.rs:208-212 | in a closed file the new line comes after all others |
| AuthorizedKeys.EditKeepsForeign | crates/tt-station-agentd/src/authkeys.rs:250-328 | one edit keeps the file closed and other people's lines, up to a lone blank line |
| AuthorizedKeys.EditsKeepForeign | crates/tt-station-agentd/src/authkeys.rs:175-328 | and so does every run of edits |
| AuthorizedKeys.ForeignLinesOutliveEdits | crates/tt-station-agentd/src/authkeys.rs:279-287 | other people's lines outlive every run of edits exactly when they are not a single blank line |
| AuthorizedKeys.EditsKeepOnePerKey | crates/tt-station-agentd/src/authkeys.rs:165-189 | no run of edits puts one key on two lines |
| AuthorizedKeys.RevokeUndoesAuthorize | crates/tt-station-agentd/src/authkeys.rs:158-248 | revoking a fresh label restores the exact bytes, except for a file that was one empty line; a file that did not exist comes back empty |
| AuthorizedKeys.RevokeByBlobUndoesAuthorize | crates/tt-station-agentd/src/authkeys.rs:158-248 | revoking a newly installed key by its material restores the exact bytes, with the same exceptions |
| AuthorizedKeys.IdleRevokeKeepsBytes | crates/tt-station-agentd/src/authkeys.rs:220-247 | a revoke that matches nothing leaves the bytes alone exactly when the file is closed, without final carriage returns, and not one empty line |
| AuthorizedKeys.AuthorizeNeedsClosedFile | crates/tt-station-agentd/src/authkeys.rs:208-212 | installing keeps every line exactly when the file was empty or newline-terminated |
| AuthorizedKeys.UnfinishedLineIsGlued | crates/tt-station-agentd/src/authkeys.rs:208-212 | in a file holding `a` and no newline the installed key line runs on from it |
| AuthorizedKeys.IdleRevokeClosesLine | crates/tt-station-agentd/src/authkeys.rs:235-244 | a revoke that matches nothing adds a newline to a file holding `a` |
| AuthorizedKeys.LoneNewlineIsLost | crates/tt-station-agentd/src/authkeys.rs:240-243 | installing and revoking in a file of one empty line leaves it empty |
| MediaMetrics.SumSeries | crates/tt-station-agentd/src/inference.rs:229-311 | the line loop adds each series once and says whether any media line was seen |
| MediaMetrics.ParseMediaMetrics | crates/tt-station-agentd/src/inference.rs:229-311 | the same for the server's own line format |
| MediaMetrics.WrapPlus | crates/tt-station-agentd/src/inference.rs:262-308 | cutting to the fields' widths at each addition is cutting once at the end |
| MediaMetrics.CompanionLinesIgnored | crates/tt-station-agentd/src/inference.rs:259-261 | `_bucket` and `_created` lines count for nothing |
| MediaLines.LineFeedsItsField | crates/tt-station-agentd/src/inference.rs:262-308 | for each of the thirteen counters, a line of its name and labels adds the printed number to that counter and nothing to any other |
| MediaLines.Taken | crates/tt-station-agentd/src/inference.rs:262-308 | the number taken: nothing below zero or when it is not a number, sums as they are, counts cut to whole and held at their width |
| MediaLines.UnreadableLine | crates/tt-station-agentd/src/inference.rs:247-250 | a line whose last word is no number counts for nothing, and still marks the text as a media server's |
| MediaLines.PrintedTotal | crates/tt-station-agentd/src/inference.rs:229-311 | any of the counters printed, one line each in any order, come back, and the others are zero |
| MediaLines.PrintedReadsBack | crates/tt-station-agentd/src/inference.rs:229-311 | a print of all the counters reads back to the same counters |
| MediaMetrics.RepeatedSampleIgnored | crates/tt-station-agentd/src/inference.rs:256-258 | a sample of a series already seen changes nothing, wherever it comes |
| MediaMetrics.RepeatedLineIgnored | crates/tt-station-agentd/src/inference.rs:230-234 | repeating any earlier line anywhere later leaves the result as it was |
| MediaMetrics.DisjointSamplesAdd | crates/tt-station-agentd/src/inference.rs:225-227 | samples that share no series add up |
| MediaMetrics.DisjointTextsAdd | crates/tt-station-agentd/src/inference.rs:225-235 | texts that share no series add up |
| MediaMetrics.TotalIsSumOfFirsts | crates/tt-station-agentd/src/inference.rs:230-258 | the total is the plain sum over the distinct series, each by its first sample |
| InferenceSampler.Sampler.DoTick | crates/tt-station-agentd/src/inference.rs:714-752 | one tick: the report from the old state, and only the flavour seen moves its baseline |
| InferenceSampler.Sampler.Run | crates/tt-station-agentd/src/inference.rs:682-752 | the reports of a whole connection, in order |
| SamplerReports.PhaseTable | crates/tt-station-agentd/src/inference.rs:631-680 | ready exactly when the scrape was read, loading when a model is served and it was not, nothing otherwise; and which of the two infos there is |
| SamplerReports.ModelNamed | crates/tt-station-agentd/src/inference.rs:639-652 | the model served, else the one the scrape names, else `unknown` |
| SamplerReports.TitleIsLastPart | crates/tt-station-agentd/src/inference.rs:610-612 | the title is what follows the last slash of the model |
| SamplerReports.GaugesPassThrough | crates/tt-station-agentd/src/inference.rs:372-470 | running, waiting and cache use as scraped, and the hit rate times all lookups is all hits |
| SamplerReports.FirstScrape | crates/tt-station-agentd/src/inference.rs:376-386 | without an earlier scrape there are no rates and no deltas |
| SamplerReports.VllmRates | crates/tt-station-agentd/src/inference.rs:372-386 | a rate times the elapsed time, a millisecond at least, is the growth of its own counter, and zero when that went back |
| SamplerReports.VllmDeltas | crates/tt-station-agentd/src/inference.rs:374-424 | a delta is the growth of its own counter up to multiples of 2^32, and zero when that went back |
| SamplerReports.VllmAverages | crates/tt-station-agentd/src/inference.rs:387-415 | an average is the mean of what completed since the last scrape, the lifetime mean in an idle window, and zero before anything completed |
| SamplerReports.MediaTotals | crates/tt-station-agentd/src/inference.rs:495-560 | jobs and both totals as scraped, and no rate or delta on a first scrape |
| SamplerReports.MediaGrowth | crates/tt-station-agentd/src/inference.rs:495-513 | generations in a minute and both deltas, as for vLLM |
| SamplerReports.MediaAverages | crates/tt-station-agentd/src/inference.rs:514-560 | and the averages of each stage |
| InferenceSampler.BaselinesAreLastScrapes | crates/tt-station-agentd/src/inference.rs:736-749 | a failed scrape or one of the other flavour never disturbs a baseline |
| InferenceSampler.DeltasTelescope | crates/tt-station-agentd/src/inference.rs:376-386 | with failures and flavour switches, a flavour's deltas sum to its last total minus its first |
| InferenceSampler.MediaDeltasTelescope | crates/tt-station-agentd/src/inference.rs:502-513 | the same for media counters |
| InferenceSampler.RateReported | crates/tt-station-agentd/src/inference.rs:372-386 | each reported rate, of tokens or of generations, is the growth of its own counter over the time on the shared clock |
| InferenceSampler.RateCoversWindow | crates/tt-station-agentd/src/inference.rs:687-694 | of either flavour, a tick's rate accounts for at least what its window brought, and for exactly that when the shared clock stands at the flavour's own last scrape or nothing was brought |
| InferenceSampler.RatesTelescope | crates/tt-station-agentd/src/inference.rs:714-752 | over any run, mixed or not, the reported rates times their windows add up to at least the growth of the counter, and to exactly that when every tick that brought something found the clock at its own flavour's last scrape |
| InferenceSampler.OneFlavourAddsUp | crates/tt-station-agentd/src/inference.rs:372-386 | so in runs of one flavour they add up |
| InferenceSampler.MixedRunOverstates | crates/tt-station-agentd/src/inference.rs:739-748 | one scrape of the other flavour between two of a counter that moved: the rates overstate it, for either flavour |
| InferenceSampler.AveragesRecompose | crates/tt-station-agentd/src/inference.rs:387-454 | over any run, averages weighted by their counts give back each stage's latency sum |
| InferenceSampler.MediaAveragesRecompose | crates/tt-station-agentd/src/inference.rs:514-560 | the same for a media server: over any run, its averages weighted by their counts give back each stage's own sum |
| CatalogNames.NormalizeKeyOf | crates/libttstation/src/catalog.rs:211-235 | the character loop with its dash flag computes the key |
| CatalogNames.NormalizeGivesKey | crates/libttstation/src/catalog.rs:200-210 | a key has no capital letter, no separator but the dash, no slash, and never two dashes together |
| CatalogNames.NormalizeFixes | crates/libttstation/src/catalog.rs:200-235 | normalising is idempotent, and leaves exactly the keys alone |
| CatalogNames.OrgIgnored | crates/libttstation/src/catalog.rs:201-206 | whatever stands before the last slash makes no difference to the key |
| CatalogNames.SpellingsAgree | crates/libttstation/src/catalog.rs:200-235 | spellings that differ in case, or in which of `.`, `_`, space and dash separates, have one key |
| CatalogNames.RepeatedSeparator | crates/libttstation/src/catalog.rs:220-235 | a dash more beside another makes no difference |
| CatalogNames.TisMeaning | crates/libttstation/src/catalog.rs:149-155 | software is the inference server exactly when its name holds `inference-server`, in any case, with a dash or an underscore |
| CatalogNames.MeshMeaning | crates/libttstation/src/catalog.rs:125-144 | a box fits a mesh exactly when they are the same or the box is several cards of it |
| CatalogDedupe.MergeMembers | crates/libttstation/src/catalog.rs:302-336 | the merged row of one group |
| CatalogDedupe.GroupModels | crates/libttstation/src/catalog.rs:290-305 | keys in order of first appearance, each with its rows in order |
| CatalogDedupe.DedupeCatalogModels | crates/libttstation/src/catalog.rs:288-338 | one merged row for each key |
| CatalogDedupe.MergeKeeps | crates/libttstation/src/catalog.rs:282-287 | no compatibility row is lost or invented, a size any twin had is kept, every other field is one twin's own, and a clean twin's if there is one |
| CatalogEntries.NamesKept | crates/libttstation/src/catalog.rs:302-336 | a merged row is named by its first member without an organisation and with a real family, else by the first without an organisation, else by the first; its size is that member's, else the first one stated |
| CatalogEntries.RowsInOrder | crates/libttstation/src/catalog.rs:312-325 | it lists that member's compatibility rows, then each new one of the others once, in order |
| CatalogDedupe.DedupedKeys | crates/libttstation/src/catalog.rs:273-287 | the keys come out pairwise distinct, in order of first appearance, and all of them |
| CatalogDedupe.DedupeKeepsRows | crates/libttstation/src/catalog.rs:273-287 | under each key the rows that go out are the rows that came in |
| CatalogDedupe.DistinctIsDeduped | crates/libttstation/src/catalog.rs:288-338 | rows with distinct keys are left alone |
| CatalogDedupe.DedupeIdempotent | crates/libttstation/src/catalog.rs:288-338 | deduplicating twice is deduplicating once |
| CatalogClassify.LiveMatch | crates/libttstation/src/catalog.rs:402-410 | of several live models with one key the last is the match |
| CatalogClassify.LiveByKey | crates/libttstation/src/catalog.rs:402-410 | the map built from the live models finds exactly that match |
| CatalogClassify.MeshTable | crates/libttstation/src/catalog.rs:421-441 | one pair per mesh in order of first appearance, with Supported winning over Experimental |
| CatalogClassify.OnBoxMeaning | crates/libttstation/src/catalog.rs:519-529 | asking the table is asking the rows |
| CatalogClassify.DecideTier | crates/libttstation/src/catalog.rs:498-577 | the chain of branches comes to the documented tier rule told on the rows alone |
| CatalogEntries.TierRule | crates/libttstation/src/catalog.rs:498-577 | the tier rule on the fields of the rows: exactly when a model is omitted, needs other hardware, needs tools or runs here |
| CatalogClassify.MakeEntry | crates/libttstation/src/catalog.rs:455-490 | the entry's fields, with software deduplicated and the hardware needed |
| CatalogEntries.EntryMeaning | crates/libttstation/src/catalog.rs:455-490 | an entry's software and meshes are those of the rows, each once; it is available exactly when a live model has its key, downloaded exactly when the last such model is, and its status follows |
| CatalogClassify.Classify | crates/libttstation/src/catalog.rs:382-596 | three vectors, the claimed set and the trailing live models come to the declarative catalog |
| CatalogClassify.ClassifyForBox | crates/libttstation/src/catalog.rs:382-596 | the same with the box's own key, mesh and software rules |
| CatalogClassify.WhereEachKeyGoes | crates/libttstation/src/catalog.rs:340-381 | a catalogued key goes once to the tier its unmerged rows call for and nowhere else, or is omitted exactly when it is neither live nor runnable; other live models go to runs-here |
| CatalogClassify.LiveRunsHere | crates/libttstation/src/catalog.rs:368-377 | a live model is always in runs-here and in no other tier |
| CatalogEntries.UnknownIsListed | crates/libttstation/src/catalog.rs:579-596 | a live model no catalog row names is listed under its own name; the answer keeps the box and the age it was asked for |
| CatalogEntries.SoftwareMatters | crates/libttstation/src/catalog.rs:149-155 | the box's software rule, on the characters of the names |
| CatalogEntries.OnThisBox | crates/libttstation/src/catalog.rs:498-577 | the box's own tier rule, in names: which models run here and which need other hardware, by hardware the box is or has several of and by software that names the inference server |
| CatalogClassify.NoModelTwice | crates/libttstation/src/catalog.rs:368-380 | no key appears twice across the tiers exactly when no two uncatalogued live models share one |
| CatalogClassify.SharedKeyListedTwice | crates/libttstation/src/catalog.rs:579-586 | two live models of one key and no catalog row: both are listed |
| CatalogClassify.EntriesSayRight | crates/libttstation/src/catalog.rs:160-181 | every entry of every tier, live-only ones included, agrees with its tier; the needed hardware is all the hardware listed and the box fits none of it |

## Left out

- Processes, files and their permissions, HTTP and WebSockets, mDNS, the desktop and tray programs, and everything else that only carries values between the parts modelled here.
- JSON decoding and serialisation: records are already decoded, and "does not parse" is one of the answers a read can give. `from_value` is not part of this model.
- Message wording: errors carry the field or the kind, and the clauses of `contention_detail`, `own_lease_clause` and `refusal_reason` are left out. `foreign_leases` keeps its clause text because it decides which clauses are distinct.
- The lease guard's chip list, and the release of a handed-over lease by a later stop, which is one of the endings by another hand.
- A release whose command could not be run after gozer had already acted on it: it is modelled as a refusal, with the lease still there.
- A log file shorter than the remembered offset beyond the clamp of one read, and rotation to a newer file.
- Lossy decoding of invalid UTF-8 in followed lines: lines are bytes. A tail that fails on such a line is modelled.
- SplitLine.SplitLineHides: is about the `hf_` and `sk-` shapes; of a token masked in the first part, the characters that follow in the second part are not counted as a token.
- Unicode case folding: ASCII only. Whitespace and control characters are Unicode's.
- Floating-point rounding and infinities in telemetry: real numbers, with a case for a number that is not one.
- MediaMetrics.WrapPlus: counters wrap at their width, as a release build does; a debug build stops with a panic instead.
- `parse_vllm_metrics`, `parse_scrape` and `extract_model_name`: a tick starts from the parsed scrape.
- InferenceSampler.DeltasTelescope: requires counters that never go back and grow by less than 2^32 between two scrapes, because a restart is reported as zero and a larger step is cut to 32 bits.
- AuthorizedKeys.EditsKeepForeign: revoking by key material may take other people's lines, which is what it is for, so it is excluded from the runs of this member; AuthorizedKeys.EditsKeepOnePerKey covers it.
- Descriptions and defaults of the run schema's entries.
- The live model's device list, which `classify` never reads.
- `config.rs`, `device.rs`, `device_mesh.rs`, `power.rs`, `menu_model.rs`, `wol.rs` and `telemetry.rs`: mostly finite tables that would add only easy members.
