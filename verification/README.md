# simple-midas-daq core, modelled in Dafny

This project models the sequential core of a small MIDAS data-acquisition
setup and proves properties of the model. It has six parts:

- **Steady trigger** (`steady_trigger.dfy`, module `SteadyTrigger`).
  - The run-control callbacks of the steady-trigger frontend set and clear the `run_in_progress` and `triggering` flags.
  - A trigger thread fires the DIO board whenever strictly more than one period has passed since the last fire.
  - `poll_event` and `read_trigger_event` observe and clear `trigger_sent`.
  - One loop iteration is one step over an abstract steady clock in microseconds.
  - A trace of run-control, loop and readout events keeps an invariant: the fires are spaced.
  - That invariant gives the rate bound: at most ⌊len/(p+1)⌋+1 fires in any window of length len.
- **Readiness handshake** (`sync_frontend.dfy`, module `SyncFrontend`).
  - The two synchronised frontends call `SetReady` and `UnsetReady` and poll a consume-once `HasTrigger`.
  - The simplest frontend reports an event exactly when a trigger was pending. The template reports one on every poll.
  - `frontend_init` of the simplest frontend reads both the address and (through `std::stoi`) the port from the same key.
- **Oscilloscope reader** (`scope_reader.dfy`, module `ScopeReader`).
  - `send` appends a newline only when needed.
  - `stop` and `start` freeze and release the reported acquisition time.
  - `getWfm` decodes an IEEE 488.2 definite-length arbitrary block (`#<n><len><data>`, IEEE 488.2 section 8.7.9) of signed 16-bit little-endian samples.
  - The 20011-byte receive buffer is the reply followed by stale bytes. Every index the decoder reads lies inside it.
  - Encoding samples as such a block and decoding them gives them back.
- **Online-monitor helpers** (`online_monitor.dfy`, module `OnlineMonitor`).
  - Trailing directory separators.
  - Zero-padded run-number names.
  - The `std::getline` split of the run tags.
  - The "json" reference test.
  - The run-log line cut from `ctime` text.
- **Config archive** (`config_archive.dfy`, module `ConfigArchive`).
  - The pass reads the two front-end config files into a property tree and snapshots the top-level keys.
  - For each snapshotted key it reads the json files the key's device entries and its own entries refer to, and attaches them at the top level.
- **ODB dump recovery** (`recover_odb.dfy`, module `RecoverOdb`).
  - The script restores either `data/run%05i.odb` for an explicit index or the dump with the largest index in the listing.

Shared helpers:

- `common.dfy`: `Option` and `Result`.
- `decimal.dfy`: printf's `%d`, `%3d` and `%05d`, and Python 2's `%05i` and `int()`.
- `text.dfy`: substring search, Python's `str.split`, and join.

Modelling choices:

- Clocks, the directory listing, the files on disk, the bytes the scope returns and the byte before a C buffer are all parameters.
- Where the source throws, the model returns an error value. Where it has undefined behaviour, the model either reports an error value or excludes the case by a precondition; each exclusion is listed under "## Left out".
- `frontend_init` reads the port from the trigger-address key, so an address `10.0.0.5` gives port 10. This is modelled as written; the intended key name is not visible in the source.

## Model

| member | source | states |
|---|---|---|
| SteadyTrigger.SelectBoard | online/frontends/src/fe_steady_trigger.cxx:298-314 | the board switch is total: 'a', 'b' and 'c' select boards A, B and C, each exactly for its letter, and every other character selects D |
| SteadyTrigger.SelectBoardInvertsLetter | online/frontends/src/fe_steady_trigger.cxx:298-314 | selecting by a board's own letter gives that board back, so every board is reachable |
| SteadyTrigger.Initial | online/frontends/src/fe_steady_trigger.cxx:105-116 | before any run the three flags are false, no trigger thread exists and nothing has fired |
| SteadyTrigger.BeginOfRun | online/frontends/src/fe_steady_trigger.cxx:174-187 | sets run_in_progress and triggering and loads the settings; launches a thread only when use_steady_trigger holds, and that thread starts its period at the begin time; launching over a still-joinable thread is the std::terminate fault, exactly when both hold |
| SteadyTrigger.EndOfRun | online/frontends/src/fe_steady_trigger.cxx:190-201 | clears both flags and joins the thread, leaving none; trigger_sent, the settings and the fire history are untouched |
| SteadyTrigger.PauseRun | online/frontends/src/fe_steady_trigger.cxx:204-208 | clears triggering and changes nothing else, including the thread's last fire time |
| SteadyTrigger.ResumeRun | online/frontends/src/fe_steady_trigger.cxx:211-215 | sets triggering and changes nothing else, so the period clock is not reset on resume |
| SteadyTrigger.PauseThenResumeRestores | online/frontends/src/fe_steady_trigger.cxx:204-215 | resuming a paused armed state restores it exactly |
| SteadyTrigger.LoopStep | online/frontends/src/fe_steady_trigger.cxx:316-339 | an iteration fires exactly when a thread exists, triggering holds and more than one period has elapsed; a fire appends the fire, sets trigger_sent and restarts the period at the post-fire clock reading; otherwise it sleeps resolution_us as converted to useconds_t, or 1000 µs while paused, and changes no flag |
| SteadyTrigger.Useconds | online/frontends/src/fe_steady_trigger.cxx:333 | usleep receives the int setting itself when it lies in 0..2^32-1, and a negative setting wrapped modulo 2^32 |
| SteadyTrigger.PollEvent | online/frontends/src/fe_steady_trigger.cxx:238-250 | returns 0 in test mode and otherwise 1 exactly when trigger_sent holds |
| SteadyTrigger.ReadTriggerEvent | online/frontends/src/fe_steady_trigger.cxx:271-286 | clears trigger_sent and changes nothing else |
| SteadyTrigger.Apply | online/frontends/src/fe_steady_trigger.cxx:174-339 | one run-control, loop or readout event on a monotone clock keeps the thread's last fire time not after the clock and never moves the clock back; it faults exactly on a begin_of_run with use_steady_trigger while a thread is still joinable |
| SteadyTrigger.Exec | online/frontends/src/fe_steady_trigger.cxx:174-339 | running a sequence of events from a clocked state never moves the clock back and keeps the last fire time not after the clock |
| SteadyTrigger.ExecAppend | online/frontends/src/fe_steady_trigger.cxx:174-339 | running a then b is running a + b, and a fault in a ends the run with that fault |
| SteadyTrigger.ExecStopsAtFirstFault | online/frontends/src/fe_steady_trigger.cxx:174-187 | a run faults exactly when some event faults in the state the events before it reached, and then the run's result is that event's fault |
| SteadyTrigger.FaultEndsRun | online/frontends/src/fe_steady_trigger.cxx:174-187 | once an event faults, the events after it do not change the run's result |
| SteadyTrigger.InitialInv | online/frontends/src/fe_steady_trigger.cxx:105-116 | the initial state satisfies the spacing invariant |
| SteadyTrigger.LoopStepInv | online/frontends/src/fe_steady_trigger.cxx:325-329 | a loop iteration preserves the invariant that each fire is strictly more than its own period after every earlier fire |
| SteadyTrigger.ApplyInv | online/frontends/src/fe_steady_trigger.cxx:174-215 | every run-control and readout event preserves the spacing invariant, run boundaries included |
| SteadyTrigger.ExecInv | online/frontends/src/fe_steady_trigger.cxx:174-339 | every reachable state satisfies the spacing invariant |
| SteadyTrigger.WindowBound | online/frontends/src/fe_steady_trigger.cxx:325-329 | a spaced history holds at most len/(p+1)+1 fires with period at least p in any closed window of length len |
| SteadyTrigger.FireRateBound | online/frontends/src/fe_steady_trigger.cxx:325-329 | from any reachable state and any event sequence, pauses included, at most len/(p+1)+1 fires of period at least p fall in a window of length len |
| SteadyTrigger.FiresNeverBurst | online/frontends/src/fe_steady_trigger.cxx:325-329 | there is no catch-up burst: two fires are always more than the later fire's period apart |
| SteadyTrigger.QuietWithoutThread | online/frontends/src/fe_steady_trigger.cxx:190-201 | with no thread, no sequence of events without a begin-of-run fires, faults or creates a thread |
| SteadyTrigger.EndOfRunIsFinal | online/frontends/src/fe_steady_trigger.cxx:190-201 | after end_of_run nothing fires until the next begin_of_run |
| SteadyTrigger.PausedThreadHoldsPhase | online/frontends/src/fe_steady_trigger.cxx:318-338 | a paused thread neither fires nor moves its last fire time at any clock reading |
| SteadyTrigger.FirstFireNeedsFullPeriod | online/frontends/src/fe_steady_trigger.cxx:295-325 | the first iteration after begin_of_run fires exactly when strictly more than one full period has elapsed since the begin time |
| SteadyTrigger.FiresCollapseIntoOneEvent | online/frontends/src/fe_steady_trigger.cxx:283-328 | two fires before one read leave trigger_sent set once; the read clears it and the next poll reports nothing |
| SyncFrontend.Deliver | online/frontends/src/simplest_frontend.cxx:224-228 | a trigger the coordinator sends leaves a trigger pending for the next HasTrigger poll and leaves readiness unchanged |
| SyncFrontend.HasTrigger | online/frontends/src/simplest_frontend.cxx:224-228 | reports whether a trigger is pending and consumes it, leaving readiness unchanged |
| SyncFrontend.BeginOfRun | online/frontends/src/simplest_frontend.cxx:161-168 | begin_of_run (the same in the template, and read_trigger_event once the bank is closed) makes the client ready and leaves a pending trigger alone |
| SyncFrontend.EndOfRun | online/frontends/src/simplest_frontend.cxx:171-178 | end_of_run (the same in the template) makes the client not ready and leaves a pending trigger alone |
| SyncFrontend.PauseRun | online/frontends/src/fe_sync_template.cxx:173-182 | pause_run and resume_run (the same in the simplest frontend) leave the handshake state untouched |
| SyncFrontend.PollEvent | online/frontends/src/simplest_frontend.cxx:211-233 | in test mode returns 0 without touching the client; otherwise consumes a pending trigger, and returns 1 exactly when one was pending (simplest) or always (template) |
| SyncFrontend.SecondPollSeesNothing | online/frontends/src/simplest_frontend.cxx:224-229 | HasTrigger is consume-once: two polls with no new trigger in between report the pending trigger (if any) first and then 0 |
| SyncFrontend.FlavoursDifferOnlyWithoutTrigger | online/frontends/src/fe_sync_template.cxx:216-223 | both frontends consume the trigger identically; their results differ exactly when no trigger was pending |
| SyncFrontend.ReportedAtMostDelivered | online/frontends/src/simplest_frontend.cxx:224-232 | over any interleaving of deliveries and polls, the simplest frontend never reports more events than triggers delivered (plus one already pending) |
| SyncFrontend.NoDeliveryLostWhenPolled | online/frontends/src/simplest_frontend.cxx:224-232 | when every delivery is followed by a poll, the simplest frontend reports exactly one event per delivery |
| SyncFrontend.DigitRun | online/frontends/src/simplest_frontend.cxx:141 | the digit run std::stoi reads is the longest prefix of decimal digits |
| SyncFrontend.Stoi | online/frontends/src/simplest_frontend.cxx:141 | std::stoi either yields a value in the 32-bit int range or throws |
| SyncFrontend.StoiReadsDecimal | online/frontends/src/simplest_frontend.cxx:141 | std::stoi reads back any int printed in decimal, whatever non-digit text follows |
| SyncFrontend.FrontendInit | online/frontends/src/simplest_frontend.cxx:120-141 | exits with EXIT_FAILURE exactly when the trigger-address key is absent; otherwise the address is the key's text and the port is std::stoi of that same text, which throws exactly when stoi finds no in-range number |
| SyncFrontend.PortComesFromAddress | online/frontends/src/simplest_frontend.cxx:132-141 | an address 10.0.0.5 gives the endpoint (10.0.0.5, port 10) |
| ScopeReader.Terminate | online/frontends/src/vxi/scope_reader.cc:43-44 | the sent command ends in a newline, extends the command by at most that newline, and is the command itself when it already ends in one |
| ScopeReader.TerminateIdempotent | online/frontends/src/vxi/scope_reader.cc:43-44 | normalising a command twice equals normalising it once |
| ScopeReader.Send | online/frontends/src/vxi/scope_reader.cc:43-47 | sending records the normalised command and leaves the stop flag and frozen time alone |
| ScopeReader.Open | online/frontends/src/vxi/scope_reader.cc:28-35 | a new reader is running and has sent only the waveform-format setup command |
| ScopeReader.Stop | online/frontends/src/vxi/scope_reader.cc:74-78 | stop sets stopped, freezes the time at the stop time and sends ACQ:STATE 0 |
| ScopeReader.Start | online/frontends/src/vxi/scope_reader.cc:81-84 | start clears stopped, keeps the frozen time and sends ACQ:STATE 1 |
| ScopeReader.SignedChar | online/frontends/src/vxi/scope_reader.cc:104-110 | a buffer byte read as a signed char lies in -128..127 and agrees with the byte modulo 256 |
| ScopeReader.DecodeSample | online/frontends/src/vxi/scope_reader.cc:110 | a decoded sample lies in the signed 16-bit range |
| ScopeReader.SampleRoundTrip | online/frontends/src/vxi/scope_reader.cc:34-110 | encoding any int16 as low byte then high byte and decoding it gives it back |
| ScopeReader.SampleBytesRoundTrip | online/frontends/src/vxi/scope_reader.cc:110 | decoding any byte pair and re-encoding gives the same two bytes |
| ScopeReader.ReceiveBuffer | online/frontends/src/vxi/scope_reader.cc:104-105 | the 20011-byte buffer starts with the received bytes |
| ScopeReader.DecodeAll | online/frontends/src/vxi/scope_reader.cc:109-114 | the N samples of the block are signed 16-bit values |
| ScopeReader.DecodeLoop | online/frontends/src/vxi/scope_reader.cc:109-114 | the decode loop yields N samples, sample i decoded from bytes head+2i and head+2i+1, so it computes exactly DecodeAll |
| ScopeReader.GetWfm | online/frontends/src/vxi/scope_reader.cc:87-116 | a channel outside '1'..'4' returns 0 and changes nothing; otherwise the time is refreshed unless stopped, the channel, query and CURV? commands are sent, an in-buffer read returns the received byte count with sample i decoded at head+2i, and a read past the buffer is reported as an overrun |
| ScopeReader.GetWfmByNumber | online/frontends/src/vxi/scope_reader.cc:118-120 | the int overload accepts a channel exactly when ch mod 256 lies in 1..4, which for -48 <= ch < 208 is exactly channels 1..4 |
| ScopeReader.ChannelNumberWraps | online/frontends/src/vxi/scope_reader.cc:118-120 | channel number 257 wraps to '1' and reads channel 1 |
| ScopeReader.DefiniteBlockReadsInBuffer | online/frontends/src/vxi/scope_reader.cc:104-110 | with a digit-count digit and N <= 10000 the header offset is 2..11 and every index read lies inside the 20011-byte buffer |
| ScopeReader.OnePointMoreOverruns | online/frontends/src/vxi/scope_reader.cc:104-110 | with nine length digits, 10001 points would read past the buffer, so the bound is tight |
| ScopeReader.CharBytes | online/frontends/src/vxi/scope_reader.cc:107 | header characters become the bytes of their codes |
| ScopeReader.SampleBytes | online/frontends/src/vxi/scope_reader.cc:34 | samples are laid out as consecutive low/high byte pairs |
| ScopeReader.BlockRoundTrip | online/frontends/src/vxi/scope_reader.cc:104-115 | a definite-length block of at most 10000 int16 samples fits the buffer and getWfm decodes exactly those samples and returns the block's byte count |
| ScopeReader.StoppedReadsAgree | online/frontends/src/vxi/scope_reader.cc:92-93 | while stopped, any two waveform reads report the same start time |
| ScopeReader.StopFreezesStartTime | online/frontends/src/vxi/scope_reader.cc:74-93 | after stop, a read reports the stop time as its start time |
| ScopeReader.StartUnfreezes | online/frontends/src/vxi/scope_reader.cc:81-93 | after start, a read reports its own time |
| OnlineMonitor.WithTrailingSeparator | online/frontends/src/an_online_monitor.cxx:233-237 | a non-empty name ends with the separator, gaining at most one character and none when it already ends with it; an empty name stays empty |
| OnlineMonitor.WithTrailingSeparatorIdempotent | online/frontends/src/an_online_monitor.cxx:233-237 | normalising a directory twice equals normalising it once |
| OnlineMonitor.WithTrailingSeparatorAsWritten | online/frontends/src/an_online_monitor.cxx:475-477 | the unguarded test agrees with the guarded one on non-empty names; on an empty name it appends the separator unless the byte before the buffer is one |
| OnlineMonitor.EmptyDirectoryBecomesRoot | online/frontends/src/an_online_monitor.cxx:559-561 | an empty directory setting becomes "/" under the unguarded test but stays empty under the guarded one |
| OnlineMonitor.RunLogPath | online/frontends/src/an_online_monitor.cxx:233-238 | the run log is runlog.txt in the current directory for an empty data directory, and otherwise in the data directory with exactly one separator between them |
| OnlineMonitor.Run5 | online/frontends/src/an_online_monitor.cxx:486 | %05i of a run number parses back to the number; it has at least five characters, all digits for non-negative runs, and exactly five below 100000, so it pads and never truncates |
| OnlineMonitor.Sis3302File | online/frontends/src/an_online_monitor.cxx:486 | given `str`, the data directory after the separator step at lines 475-477, the sis3302 name is that text followed directly by fe_sis3302_run_ and ends in .root |
| OnlineMonitor.Sis3316File | online/frontends/src/an_online_monitor.cxx:495 | given the same `str`, the sis3316 name adds a separator of its own before fe_sis3316_run_ and ends in .root |
| OnlineMonitor.MergedFile | online/frontends/src/an_online_monitor.cxx:504 | given the same `str`, the merged name adds a separator of its own before run_ and ends in .root |
| OnlineMonitor.ConfigArchiveFile | online/frontends/src/an_online_monitor.cxx:596 | given `histdir` after the separator step at lines 559-561, the config archive name is that text followed directly by run and ends in _config.json |
| OnlineMonitor.DataFileSeparators | online/frontends/src/an_online_monitor.cxx:475-504 | after the unguarded separator step the directory is non-empty exactly when the setting is non-empty or the byte before the buffer is not a separator; then it ends in a separator, the sis3302 and config-archive names have one separator before their stem, and the sis3316 and merged names have two |
| OnlineMonitor.RunLogKey | online/frontends/src/an_online_monitor.cxx:723 | the run-log key is run_ followed by text that parses back to the run number |
| OnlineMonitor.RunNamesEncodeRun | online/frontends/src/an_online_monitor.cxx:486-504 | the run number is recoverable from the sis3302, sis3316, merged and config-archive file names and from the run_%05d run-log key |
| OnlineMonitor.MergedFilesDistinct | online/frontends/src/an_online_monitor.cxx:504 | distinct runs get distinct merged file names and distinct run-log keys |
| OnlineMonitor.SplitTags | online/frontends/src/an_online_monitor.cxx:713-718 | the getline fields contain no comma, and there are none exactly for the empty string |
| OnlineMonitor.JoinSplitTags | online/frontends/src/an_online_monitor.cxx:713-718 | joining the tags with commas gives back the string except for one dropped trailing comma, so order and empty interior fields are kept |
| OnlineMonitor.SplitJoinTags | online/frontends/src/an_online_monitor.cxx:713-718 | comma-free tags whose last one is non-empty come back unchanged from joining and splitting |
| OnlineMonitor.IsJsonReference | online/frontends/src/an_online_monitor.cxx:650 | a config value is followed exactly when "json" occurs in it at some position |
| OnlineMonitor.Ctime | online/frontends/src/an_online_monitor.cxx:243-252 | ctime text is at least 22 characters long and ends in a newline |
| OnlineMonitor.CtimeSlices | online/frontends/src/an_online_monitor.cxx:243-254 | in ctime text the first 10 characters are the weekday, month and day and characters 11..18 are hh:mm:ss |
| OnlineMonitor.RunLogEntry | online/frontends/src/an_online_monitor.cxx:228-240 | the run log is appended to exactly when data is written and the run is online, at the run-log path |
| OnlineMonitor.RunLogLine | online/frontends/src/an_online_monitor.cxx:242-261 | the run-log line starts with the ten-character end date and a tab and ends in a newline |
| OnlineMonitor.RunLogColumns | online/frontends/src/an_online_monitor.cxx:242-261 | splitting a run-log line at tabs recovers the end date, the %3d run number, the start and end clock times, the thousands of events with k, and the comment |
| ConfigArchive.GetChild | online/frontends/src/an_online_monitor.cxx:638 | get_child returns a tree the children hold under the key, and fails only when no child has the key |
| ConfigArchive.PutChild | online/frontends/src/an_online_monitor.cxx:655 | put_child leaves the new child in the children and adds at most one child |
| ConfigArchive.GetChildPresent | online/frontends/src/an_online_monitor.cxx:638 | get_child finds a child exactly when the key is present |
| ConfigArchive.GetChildFirst | online/frontends/src/an_online_monitor.cxx:662 | get_child returns the first child with the key |
| ConfigArchive.PutChildReads | online/frontends/src/an_online_monitor.cxx:655 | after put_child the key reads back the new tree and every other key reads as before |
| ConfigArchive.PutChildKeys | online/frontends/src/an_online_monitor.cxx:677 | put_child keeps the key order and appends the key only when it is new |
| ConfigArchive.ReadJson | online/frontends/src/an_online_monitor.cxx:611 | read_json succeeds exactly on an existing file and yields its tree; otherwise it fails naming the path |
| ConfigArchive.FollowEntries | online/frontends/src/an_online_monitor.cxx:662-679 | following entries fails only on an unreadable file and reads at most one file per entry |
| ConfigArchive.FollowDevices | online/frontends/src/an_online_monitor.cxx:638-659 | following the devices fails only on an unreadable file |
| ConfigArchive.ExpandKey | online/frontends/src/an_online_monitor.cxx:636-680 | expanding a key fails with the missing-key error when the key is absent, and otherwise only on a missing devices child of that key or an unreadable file |
| ConfigArchive.ExpandAll | online/frontends/src/an_online_monitor.cxx:633-680 | expanding the snapshotted keys fails only on an unreadable file or on one of those keys |
| ConfigArchive.LoadFrontEnd | online/frontends/src/an_online_monitor.cxx:605-626 | a front-end file is read exactly when its name is set; the read fails exactly when the file is missing, and otherwise the tree is put under the front-end key and the path is recorded |
| ConfigArchive.ArchivePass | online/frontends/src/an_online_monitor.cxx:594-681 | an unreadable sis3302 file aborts the pass with that read failure; a successful pass had the sis3316 file, when named, available |
| ConfigArchive.FollowEntriesReads | online/frontends/src/an_online_monitor.cxx:662-679 | following entries reads exactly the config-directory paths of the entries whose values contain "json", in order, and fails exactly when one of them is unreadable |
| ConfigArchive.FollowEntriesGrows | online/frontends/src/an_online_monitor.cxx:672-677 | following entries only grows the archive, and only by keys of json entries |
| ConfigArchive.FollowDevicesReads | online/frontends/src/an_online_monitor.cxx:638-659 | following the devices reads the json values of their entries device by device and only grows the archive |
| ConfigArchive.ExpandKeyOutcome | online/frontends/src/an_online_monitor.cxx:636-680 | expanding a present key fails only on a missing devices child or an unreadable file, and otherwise grows the archive and reads only json references |
| ConfigArchive.ExpandAllOutcome | online/frontends/src/an_online_monitor.cxx:633-680 | expanding the snapshotted keys fails only on a snapshotted key without devices or an unreadable file, and otherwise grows the archive and reads only json references |
| ConfigArchive.ArchivePassOutcome | online/frontends/src/an_online_monitor.cxx:594-681 | the pass reads the front-end files whose names are set and then only json references; the archive starts with the snapshotted keys; it fails only on an unreadable file or a front-end tree without devices |
| ConfigArchive.FollowEntriesKeeps | online/frontends/src/an_online_monitor.cxx:672-677 | following entries leaves the lookup of every key that is not a json entry's key unchanged |
| ConfigArchive.FollowDevicesKeeps | online/frontends/src/an_online_monitor.cxx:638-659 | following the devices leaves the lookup of every key that none of their json entries names unchanged |
| ConfigArchive.ExpandKeyFiles | online/frontends/src/an_online_monitor.cxx:636-680 | expanding a key none of whose device entries is a json entry named like the key reads exactly the json files of its devices' entries and then of its own entries, and leaves every untouched key's tree unchanged |
| ConfigArchive.ExpandAllFiles | online/frontends/src/an_online_monitor.cxx:633-680 | when no expansion overwrites a snapshotted key, expanding the snapshot reads exactly each key's device and first-level json files, key by key, from the trees the snapshot had |
| ConfigArchive.ArchivePassReadsSnapshotOnly | online/frontends/src/an_online_monitor.cxx:629-680 | for every input where no json entry names a snapshotted key, a successful pass reads exactly the front-end files and then the json files of the front-end trees as first read; trees added during the pass are never expanded |
| ConfigArchive.AddedKeysNotExpanded | online/frontends/src/an_online_monitor.cxx:629-636 | a concrete pass whose added tree refers to a missing file succeeds, while expanding that key alone fails |
| RecoverOdb.OdbPath | common/scripts/recover_last_odb.py:21 | data/run%05i.odb starts with data/run, ends in .odb, and the text between parses back to the index |
| RecoverOdb.ParseIndex | common/scripts/recover_last_odb.py:29 | the index split raises IndexError exactly when the path has no "/run"; otherwise the text up to ".odb" is read with Python 2's int(), raising ValueError when it is not a number |
| RecoverOdb.ParseIndices | common/scripts/recover_last_odb.py:25-29 | the listing parses to one index per path, in order, or to the exception of its first unparsable path |
| RecoverOdb.Collect | common/scripts/recover_last_odb.py:28-29 | the loop yields one value per element in order when none raises, and otherwise stops with the exception of the first element that raises |
| RecoverOdb.ArgMax | common/scripts/recover_last_odb.py:31 | np.argmax returns the first position of the maximum |
| RecoverOdb.ChooseDump | common/scripts/recover_last_odb.py:19-31 | with an argument the dump is data/run%05i.odb of its Python 2 int() value (white space around the number and after the sign allowed), raising ValueError otherwise; without one, an empty listing raises, a bad path raises its exception, and otherwise the dump of a maximal parsed index is chosen |
| Decimal.PyIntWithoutSpace | common/scripts/recover_last_odb.py:21 | on text without white space, Python 2's int() reads exactly an optional sign followed by at least one decimal digit |
| Decimal.PyIntIgnoresPadding | common/scripts/recover_last_odb.py:21 | int() ignores any white space before and after the number |
| Decimal.PyIntPaddedExample | common/scripts/recover_last_odb.py:21 | int(" 5\n") is 5 |
| Decimal.PyIntSpacedSignExample | common/scripts/recover_last_odb.py:21 | int("- 5") is -5: white space between the sign and the digits is skipped |
| Decimal.PyIntInnerSpaceExample | common/scripts/recover_last_odb.py:21 | int("5 5") raises ValueError |
| RecoverOdb.ParseOdbPath | common/scripts/recover_last_odb.py:21-29 | parsing the index out of data/run%05i.odb returns the index it was formatted from, for every integer |
| RecoverOdb.ParseDumpListing | common/scripts/recover_last_odb.py:28-29 | a listing of dumps written by the script parses to the indices they were written for |
| RecoverOdb.GlobbedPathsHaveRun | common/scripts/recover_last_odb.py:25-29 | every path matching data/run*.odb contains "/run", so the split never raises IndexError |

## Left out

- Threads, atomics and sleeping: the trigger thread, the merge and archive threads, `usleep` and `steady_clock`. One loop iteration is one atomic step. Interleaving inside an iteration (between the elapsed-time check and the fire) is not modelled.
- Floating point:
  - the period is taken as a whole number of microseconds, not converted from the `double` rate;
  - `wfm = wfmbin*dV` and `time = t0+i*dt` are not computed;
  - the event count `(int)(n/1000.0+0.5)` is a parameter;
  - the scope reader's `tom` and clock readings are whole milliseconds, where the source keeps `double` seconds (the millisecond count divided by 1000); the scale is the same for every value, so the freeze and equality properties are unaffected.
- Foreign libraries:
  - `DioTriggerBoard`: `FireTriggers` is an action in the model.
  - `SyncClient`: a record of two flags, plus `Deliver` for a trigger that arrives.
  - `vxi11_*`: the reply bytes are a parameter and a negative receive count is not modelled.
  - `atoi`, `atof` and the ROOT classes are outside the model.
- The coordinator side of the handshake, sequence numbers and link loss are not part of these files.
- ODB access, `load_params`, JSON parsing and writing, ROOT files, plotting and the file merge are I/O. Files are a map from path to parsed tree, and database values are parameters.
- The run-log JSON file (`runlog.json`): its comment and tags tree is not built. Only the tag split and the `run_%05d` key are modelled.
- Property-tree paths are taken as plain keys. Boost's splitting of a key at '.' is not modelled.
- Both loops over a key's children (the devices loop at an_online_monitor.cxx:638-659 and the first-level loop at 662-677) iterate a child list that `put_child` can overwrite when a json entry is named like a top-level key; that is undefined behaviour in the source. The model iterates the children the key had when each loop began, and looks the key up again between the two loops.
- `read_json` throwing aborts the pass in the model (an error value). The source does not catch it.
- A `getWfm` read past the 20011-byte buffer is undefined behaviour in the source. The model reports it as `Overrun` instead of modelling what would be read.
- `ctime` text shorter than 19 characters cannot occur and is excluded by a precondition of the slicing functions.
- ScopeReader.Terminate, ScopeReader.Send: an empty command is excluded by a precondition. The source reads `cmd[cmd.size()-1]` (scope_reader.cc:43-44), which is undefined behaviour on an empty string; every command the reader itself sends is non-empty.
- Decimal.PyInt models Python 2's `int()` on `str` for base 10 only. Unicode input and other bases are not modelled; a trailing `L` is a ValueError, as it is in Python 2.
- `trigger_time` in the steady-trigger readout is never assigned in the source, so the bank contents are not modelled.
- Deleting the shared-memory file and the `odbedit` calls of the recovery script are process calls and are not modelled.
- The other repository files are not part of this model: `an_sis3302.cxx`, `fe_sis3316.cxx`, the offline tools, `experim.h`, `scope_reader.h`, `fill_odb.py` and `init_odb.py`.

## Findings

| source | as written | input that shows it | evidently intended | confidence | as-written member | corrected member |
|---|---|---|---|---|---|---|
| online/frontends/src/an_online_monitor.cxx:475-477 | `str[strlen(str) - 1]` is read without checking that the string is non-empty (also at lines 132-134 and 559-561) | an empty `/Logger/Data dir` reads the byte before the buffer and typically appends the separator, so the data files land under "/" | leave an empty directory name empty, as the guarded run-log code at lines 233-238 does | not executed | OnlineMonitor.EmptyDirectoryBecomesRoot | OnlineMonitor.WithTrailingSeparator |
