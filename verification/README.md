# sysmngr: what its stateful parts guarantee

sysmngr is a router daemon behind the TR-181 Issue 2 (Device:2) data model. This project models its seven stateful
parts and proves properties of whole runs of them:

- the CPU and the memory monitor (`Hysteresis`, `SlidingWindow`, `Utilisation`, `Configuration`, `CpuMonitor`,
  `CpuMonitorRuns`, `MemoryMonitor`): jiffy sampling, four ring buffers, the truncated average, and an alarm whose
  phase is only a comparison of two times that are stored as decimal text;
- the firmware-bank cache (`FwBank`, `FwBankSystem`, `FwBankLifecycle`): forked tasks, finish callbacks, kill
  timeouts, the bounded retry, the sysupgrade listener, and the real bank table they must agree with;
- activation (`Activation`, `ActivateHandler`): accepted time windows, cron jobs, and the WhenIdle handler;
- the reboot log (`Reboots`, `RebootRuns`);
- the process table and its events (`ProcessTable`);
- the command line of a process, rewritten in its buffer (`CommandLine`);
- bank identifiers and the choice of the boot bank (`BankId`, `FirmwareImages`).

`Decimal` is the text that "%d" prints and strtol and strtoul read, and `Texts` is strstr. Each stateful part is a class
with the fields and callbacks of the code; its methods equal functions on a value, and the laws are lemmas about runs of
those functions. `dafny verify dfyconfig.toml` checks everything.

## Where the code differs from its documentation or from what one would expect

- The alarm follows the clockless automaton exactly when the clock at a rise is past the stored fall time and the
  clock at a fall is not before the stored rise time (`PollRefinesIff`); a clock set back announces a rise twice
  (`ClockSetBackRisesTwice`). Over a run with clock values that can be stored, every prefix follows the automaton
  exactly when every poll meets that condition (`RunRefinesIff`).
- A monitor that sees only hot samples ends critical exactly when fall <= rise + 1 (`RespondsIff`); otherwise a
  utilisation between the thresholds rises and falls within one poll. Cooling always responds, for all thresholds
  (`NormalWithinWindow`): the fall test comes last, so the asymmetry is real.
- `get_cpu_load` agrees with the 64-bit formula exactly while 100 * busy fits 32 bits (`CpuLoadAgreesIff`).
- Process events are suppressed when the count was zero, so a subscriber stays right exactly when the count never
  rises from zero again (`InSyncIff`).
- Time windows that start within the first minute are moved but keep their length; `OverlapsBelowMinuteIff` gives
  the exact worst overlap and `ClampedWindowOverlaps` an example.
- The reply of a finished set_bootbank also goes out when the daemon itself asked for the switch, on a request record
  that was never filled in: the callback is given the address of that record, which is never null. The model sends it,
  to nobody.
- An event whose Available status precedes its bank id is accepted for any bank (`StatusFirstIsNotChecked`).
- The retry count is never reset by a success, and a refresh that cannot be started, or fails after ten retries, is
  dropped; `CacheIsCoherent` has that exception, and `StaleWhenExhausted` shows that a fair run reaches it. Dumps that
  exit out of order leave an old table (`OutOfOrderIsStale`).
- BootFirmwareImage looks for a bank's section with `get_dmmap_section_of_config_section_cont`, where Available is read
  and written by equality of the id. That function is not part of this repository; its name reads as "containing". The
  model takes the match as a parameter, and `RunIsSafeIff` gives, for every match, table and run, the exact condition
  under which the boot bank is never marked unavailable: a switch is safe exactly when, if the bank's own section says
  "false", the section found says so too (`SwitchIsSafeIff`). By containment it fails for bank 1 beside a section of
  bank 10 (`ContainedIdIsNotChecked`). It never fails when ids tell banks apart and none finds another's section
  (`BootBankStaysAvailable`), which equality always gives and containment exactly when no id text is a proper part of
  another (`ApartReadings`).
- A bank without an id is switched to as bank 0, although bank 0 may be marked unavailable, in both readings
  (`MissingIdSwitchesToZero`).
- Activate() does not look at availability (`ActivateIsNotChecked`).
- A new maximum of reboot entries is applied to the history as written, but the next boot reads 15 characters of it,
  and 3 when it was empty. `HistoryIsBoundedIff` gives the exact condition under which the history stays within the
  stored maximum: every cap change keeps no more sections than its stored text allows. "0000000000000032" with ten
  entries fails it (`LongMaximumExceedsCap`), and a text of one to fifteen characters always meets it
  (`ShortValueIsSafe`).
- A factory reset neither uses nor clears the cause left for the next boot (`CauseIsRemoteIff`).
- docs/guide/libbbfdm_DeviceInfo_Reboots.md lists a limit of 255 entries, the file /tmp/reset_reason, an uppercase
  WATCHDOG marker, and an upgrade marker for CurrentVersionBootCount. The code uses 32, /var/reset_reason, lowercase
  "watchdog", and resets that counter only on "defaultreset". The model follows the code.
- docs/guide/libbbfdm_DeviceInfo_FirmwareImage.md gives the handler the end of the window and puts the retries before
  the message; the code passes the duration, and the message first.

## Assumptions

- `long` has 64 bits, except in `BankId`, where 32 and 64 are both covered. Times are seconds, and a time zone is a
  whole number of minutes from UTC.
- Options are read into the 16-byte buffers with truncation to 15 characters, and setting an option to the empty text
  deletes it. Writes to the configuration succeed. Sections are ordered and new ones come last.
- The setters keep the number of samples in 1..300 and the thresholds in 0..100.
- `dm_file_to_buf` fills at most the buffer's size less one and terminates it; `basename` is the one that does not
  write. Neither is part of this repository.
- A data-model integer is a numeral of digits with an optional minus.
- A script's output arrives in one read. A killed script has printed nothing and changed nothing; its exit callback
  still runs.

## Model

| member | source | states |
|---|---|---|
| Decimal.LongRoundTrip | src/processes.c:475-476 | every value of the word printed with "%ld" is what strtol reads back |
| Decimal.UnsignedRoundTrip | src/fw_images.c:107 | strtoul undoes "%d" modulo the word, for either sign |
| Decimal.TruncatedRoundTrip | src/processes.c:514 | a stored value survives a read buffer exactly when its whole text fits |
| Decimal.ReadsAndSaturates | src/processes.c:515-545 | strtol and strtoul read a numeral after blanks and a sign up to its last digit, and saturate beyond the word |
| Hysteresis.PollRefinesIff | src/processes.c:468-501 | one poll takes the phase and the actions of the clockless two-state automaton if and only if the clock condition holds |
| Hysteresis.PollEffect | src/processes.c:468-501 | a poll writes a time and its text exactly with the action that announces them, at the clock of that test |
| Hysteresis.StoredTimeSurvivesIff | src/processes.c:544-549 | a clock value stored as text and loaded through 16 bytes is unchanged exactly for -10^14 < t < 10^15 |
| Hysteresis.RunRefinesAutomaton | src/sysmngr.c:49-64 | every run of polls and reloads does what the automaton without times does, and the stored texts keep restoring the times |
| Hysteresis.RunRefinesIff | src/processes.c:468-549 | with storable clock values every prefix of a run follows the automaton if and only if every poll meets the clock condition |
| Hysteresis.AlarmAlternates | src/processes.c:468-501 | over any run, across reloads, rises and falls alternate strictly and each is on its side of the threshold in force |
| Hysteresis.AdvancingIsGood | src/processes.c:474-493 | a clock that advances from poll to poll meets the clock condition for the whole run |
| Hysteresis.ClockSetBackRisesTwice | src/processes.c:468-476 | with the clock behind the stored fall time the same rise is announced twice |
| Utilisation.GetJifVal | src/processes.c:78-106 | the loop reads up to the first line with four counters |
| Utilisation.ReadingIsLine | src/processes.c:83-100 | of the first such line each counter is the value at its place, those it does not give stay, and system, idle and busy time are sums of places |
| Utilisation.PartialLine | src/processes.c:86-90 | a line with fewer counters sets those and no derived time |
| Utilisation.ScanIsExact | src/processes.c:92-100 | the derived times are the true sums whenever the total fits 64 bits |
| Utilisation.SampleIsTrue | src/processes.c:450-458 | with monotone counters the four samples are the true floored percentages: no wrap, no truncation |
| Utilisation.SampleOfLines | src/processes.c:83-458 | the sample between two full lines is the percentages of the time between them that each place of the lines took |
| Utilisation.SampleIsSound | src/processes.c:450-458 | user + system + idle <= 100, busy <= 100, busy + idle is 99 or 100 when time advanced, all zero when it did not |
| Utilisation.PercentComplement | src/processes.c:457-458 | busy and idle percentages add up to 100 exactly when the busy percentage is whole |
| Utilisation.CpuLoadAgreesIff | src/processes.c:108-120 | the 32-bit on-demand load equals the 64-bit sample if and only if 100 * busy fits 32 bits |
| SlidingWindow.AverageIsExact | src/processes.c:424-434 | the 32-bit sum of percentages does not wrap and the average is the floor of the mean, within the samples' range |
| SlidingWindow.AveragesOfComplements | src/processes.c:424-434 | columns that add up to 99 or 100 have truncated averages that add up to 98..100 |
| CpuMonitors.StoreKeepsRing | src/processes.c:455-464 | writing at the index and moving it keeps a buffer equal to the last min(k, N) samples of the history |
| CpuMonitors.StoreKeepsRings | src/processes.c:455-466 | the four writes, the flag and the index together keep all four buffers equal to their columns of the window |
| CpuMonitors.RingIsWindow | src/processes.c:455-464 | read round from the index, a buffer is exactly the window in order |
| CpuMonitors.CursorMoves | src/processes.c:460-464 | the index stays below N and full_samples_reached holds exactly after N polls |
| CpuMonitors.CpuMonitor.constructor | src/processes.c:512-571 | a started monitor has empty windows, the configured settings, and times that its stored texts restore |
| CpuMonitors.SettingsRoundTrip | src/processes.c:522-540 | the settings loaded are the settings stored, each from its own option |
| CpuMonitors.CpuMonitor.CalculateAverageSamples | src/processes.c:424-434 | the loop averages exactly the samples taken so far |
| CpuMonitors.CpuMonitor.ReportedUtilisation | src/processes.c:782-804 | each utilisation parameter is the average over the window of its own column |
| CpuMonitors.CpuMonitor.RunCpuMonitor | src/processes.c:436-505 | a poll on buffers and text is a poll of the reference monitor on the window, and re-arms the timer |
| CpuMonitors.CpuMonitor.CheckAlarm | src/processes.c:468-501 | the two tests on the fields and options are one poll of the alarm and write nothing but the two times |
| CpuMonitors.CpuMonitor.ReloadConfig | src/processes.c:512-579 | a reload empties the windows and keeps the alarm as its stored texts give it |
| CpuMonitorRuns.WindowAfterPolls | src/processes.c:455-466 | after any number of polls the window is the last N samples of everything seen |
| CpuMonitorRuns.MonitorDrivesAlarm | src/processes.c:466-501 | a run of the monitor is a run of the alarm on the window averages |
| CpuMonitorRuns.MonitorAlternates | src/processes.c:466-501 | the CPU monitor's rises and falls alternate over every good run with reloads |
| CpuMonitorRuns.CriticalWithinWindow | src/processes.c:424-485 | N polls in a row above the rise threshold leave the monitor critical from every state |
| CpuMonitorRuns.NormalWithinWindow | src/processes.c:424-501 | N polls in a row below the fall threshold leave it normal, from every state and for all thresholds |
| CpuMonitorRuns.RespondsIff | src/processes.c:468-501 | for thresholds in 0..100 the response to heat is guaranteed if and only if fall <= rise + 1 |
| CpuMonitorRuns.BusyAndIdleAverages | src/processes.c:424-458 | average busy and idle utilisation over a window in which time advanced add up to 98..100 |
| CpuMonitorRuns.ReportIsTrueMean | src/processes.c:424-466 | with monotone counters and at most 300 samples a reported utilisation is the floor of the mean of the last min(polls, N) true percentages |
| MemoryMonitors.MemoryUtilisationIsSound | src/memory.c:81-93 | with reclaimable <= total the utilisation is the true percentage, and 100 exactly when nothing is reclaimable |
| MemoryMonitors.MemorySettingsRoundTrip | src/memory.c:181-199 | the settings loaded are the settings stored, each from its own option |
| MemoryMonitors.MemoryMonitor.RunMemoryMonitor | src/memory.c:124-166 | a poll is a poll of the same alarm on the memory utilisation |
| MemoryMonitors.MemoryMonitor.ReloadConfig | src/memory.c:173-237 | a reload keeps the phase its texts give, and polls at once when enabled |
| ProcessTable.ProcessContext.BroadcastAddDelEvent | src/processes.c:208-236 | the loop announces exactly the range between the two counts, and nothing from zero |
| ProcessTable.ProcessContext.InitProcessList | src/processes.c:238-330 | a listing cut short keeps the count and stays silent; a complete one sets it and announces the difference |
| ProcessTable.CollectedGrows | src/processes.c:238-330 | each process adds its entry at the end of the list, any other entry nothing, and nothing counts after a failed allocation |
| ProcessTable.ProcessContext.RunRefreshProcessList | src/processes.c:332-362 | a refresh replaces the list and re-arms its timer |
| ProcessTable.AnnouncementIsRight | src/processes.c:222-233 | from a count that is not zero, applying the announced paths turns the old instance set into the new one |
| ProcessTable.RefreshKeepsSubscriberIff | src/processes.c:213-215 | a right subscriber stays right if and only if the count was not zero or stays zero |
| ProcessTable.InSyncIff | src/processes.c:325-329 | over a run a subscriber is always right if and only if the count never rises from zero again |
| ProcessTable.SubscriberFollows | src/processes.c:353-362 | with non-empty snapshots a subscriber knows exactly 1..process_num, and 1..list length after each completed refresh, whatever failed before |
| CommandLine.FileToBuf | src/processes.c:160 | the assumed reader: at most the size less one, terminated |
| CommandLine.TrimTail | src/processes.c:165-166 | the trimming loop leaves the text without its trailing NULs |
| CommandLine.CutFirstWord | src/processes.c:168-170 | finds the end of the first word and its base name, writing only a NUL over the first space |
| CommandLine.Blank | src/processes.c:171-175 | every byte below space becomes a space and the rest of the buffer stays |
| CommandLine.StartsWith | src/processes.c:193 | the comparison succeeds exactly when comm is a prefix of the text from the base name on |
| CommandLine.Prepend | src/processes.c:193-202 | the result is "{comm} " and the old text, cut to the buffer and terminated |
| CommandLine.GetCmdline | src/processes.c:154-206 | the edited buffer is always terminated and holds the string function's result for every file, comm and size |
| CommandLine.CommandIsShown | src/processes.c:154-206 | a command of directory, name and arguments is shown as it is when comm is how its name goes on, and otherwise behind "{comm} ", cut to the buffer |
| CommandLine.RewrittenIsPrintableIff | src/processes.c:154-206 | what is shown fits the buffer, and has no byte below space if and only if the part of comm that fits behind a bracket has none |
| BankId.LinkerFits | src/fw_images.c:362-364 | the 16-byte linker never truncates and is filled to the last byte exactly for 2^31 <= id <= 2^32 - 10^9 |
| BankId.IdRoundTrip | src/fw_images.c:391-400 | print, prefix, cut at the first '-', strtoul and narrowing return every 32-bit id, on 32- and 64-bit platforms |
| BankId.LinkerInjective | src/fw_images.c:427-432 | different ids have different aliases |
| FwBank.RefreshedIff | src/fwbank.c:390-413 | an event refreshes the cache if and only if its first attribute that stops the visit is status Available |
| FwBank.BankFirstIsChecked | src/fwbank.c:390-413 | with the bank id first, only the listener's own bank refreshes |
| FwBank.StatusFirstIsNotChecked | src/fwbank.c:407-411 | with the status first, any bank does |
| FwBank.FwBankDaemon.Fork | src/fwbank.c:145-200 | a started task is in flight with its kill timeout and its request deferred; a failed start changes nothing |
| FwBank.FwBankDaemon.ValidateGlobalFwbankDump | src/fwbank.c:227-267 | the loop accepts exactly the dumps in which some bank has all eight fields |
| FwBank.FwBankDaemon.DumpFinishCallback | src/fwbank.c:269-337 | a valid dump replaces the cache; anything else arms the retry while fewer than ten were made |
| FwBank.FwBankDaemon.SetBootbankFinishCallback | src/fwbank.c:488-538 | a JSON output is the reply, also for a switch of the daemon's own, and a reported switch starts a dump |
| FwBank.FwBankDaemon.UpgradeFinishCallback | src/fwbank.c:555-606 | a JSON output is the reply, and a reported upgrade registers the listener for its bank |
| FwBank.FwBankDaemon.WaitForSysupgradeEvent | src/fwbank.c:430-439 | the handler is registered for the bank with its timeout pending |
| FwBank.FwBankDaemon.TaskFinishCallback | src/fwbank.c:76-101 | a finished task leaves the list, its callback runs, and its request is completed |
| FwBank.ExitEffect | src/fwbank.c:76-606 | by what was started and what was printed: which field an exit changes, which messages it sends, whether it starts a dump, and nothing else |
| FwBank.FwBankDaemon.RequestHandler | src/fwbank.c:641-670 | a request that cannot start a task is answered at once |
| FwBank.FwBankDaemon.DumpTimerCallback | src/fwbank.c:202-213 | a fired retry starts a dump if the script exists |
| FwBank.FwBankDaemon.ReceiveSysupgradeCallback | src/fwbank.c:366-422 | the visiting loop ignores, refreshes and closes, or only closes, as the verdict on the attributes says |
| FwBank.EventEffect | src/fwbank.c:390-422 | an event leaves a registered listener as it was if and only if its first stopping attribute is a foreign bank id or Downloading; any other closes it, and starts one dump exactly for Available |
| FwBankSystem.StepKeepsCoherent | src/fwbank.c:269-439 | after every step a repair is due, or the cache is right, or the last dump in flight will make it right |
| FwBankSystem.CacheIsCoherent | src/fwbank.c:269-606 | in every quiescent state of every fair interleaving the cache is the real bank table, unless a wanted refresh was dropped since the last start |
| FwBankSystem.CacheIsCoherentUntilExhausted | src/fwbank.c:326-336 | with a script and working forks only exhausted retries excuse a stale cache |
| FwBankSystem.DroppedMeansExhausted | src/fwbank.c:326-336 | when every dump can be started, a refresh is dropped only after ten retries |
| FwBankSystem.StartedRefreshIsNotDropped | src/fwbank.c:202-538 | a refresh that is started after a dropped one ends the exception |
| FwBankSystem.ListensThrough | src/fwbank.c:390-405 | any run of Downloading and foreign events leaves the daemon listening, exactly as it was |
| FwBankSystem.LaterAvailableIsAccepted | src/fwbank.c:390-422 | after them the event that announces the upgrade is accepted and starts the dump |
| FwBankSystem.StaleWhenExhausted | src/fwbank.c:269-336 | a switch followed by eleven failing dumps is a fair run that ends at rest with the old table in the cache |
| FwBankSystem.UpgradeFillsCache | src/fwbank.c:366-606 | a requested upgrade, its event and the dump it starts are a fair run that takes the cache from any old table to any new one |
| FwBankSystem.OutOfOrderIsStale | src/fwbank.c:312-319 | two dumps that exit in the other order leave a quiescent daemon with the old table |
| FwBankLifecycle.CacheOnlyReplaced | src/fwbank.c:305-324 | only a valid dump replaces the cache, by exactly that dump, and only the end of the daemon empties it |
| FwBankLifecycle.CacheIsSafe | src/fwbank.c:227-337 | in every run, whatever scripts print, the cache is empty or valid, stays filled once filled until the daemon ends, and retries never exceed ten |
| FwBankLifecycle.ListenerIffTimer | src/fwbank.c:353-439 | in every run the handler is registered exactly while its timeout is pending |
| FwBankLifecycle.StepKeepsLife | src/fwbank.c:76-200 | each step moves each request along: deferred, at most one reply, completed |
| FwBankLifecycle.ExitTells | src/fwbank.c:76-606 | an exit tells its request, and no other, one reply exactly when its output is JSON and it is no dump, and then the completion |
| FwBankLifecycle.RequestsCompleteOnce | src/fwbank.c:76-200 | every deferred request is completed exactly once after at most one reply, whether its script ends, prints garbage or is killed |
| FwBankLifecycle.KilledTaskOnlyCompletes | src/fwbank.c:76-143 | a task killed before it printed completes its request without a reply, leaves cache, listener and other tasks alone, and is retried exactly when it was a dump with retries left |
| FwBankLifecycle.SpontaneousStepDecreases | src/fwbank.c:202-337 | every step that is no new request decreases a measure |
| FwBankLifecycle.ComesToRest | src/fwbank.c:326-336 | without new requests the number of further steps is bounded even when every script fails for ever |
| FwBankLifecycle.AtRestIff | src/fwbank.c:326-336 | no step is left exactly in the quiescent states with no upgrade going on in the background |
| Activation.WindowCount | src/fw_images.c:635-636 | windows are counted up to the first without a start, at most five |
| Activation.Windows.Accept | src/fw_images.c:617-660 | the loop accepts exactly the well-formed windows that each follow their neighbour, and finds the last one |
| Activation.AcceptedIff | src/fw_images.c:617-660 | a call is accepted if and only if every given window is good on its own and any two are in order without overlap |
| Activation.Windows.EmitJobs | src/fw_images.c:673-695 | one job per window, each from its own clock reading, with force exactly for the last |
| Activation.Activate | src/fw_images.c:605-711 | which calls are refused without effect, scheduled, or activated at once |
| Activation.WindowsAreOrdered | src/fw_images.c:656-657 | checks between neighbours order all windows: end i <= start j for all i < j |
| Activation.JobMinute | src/fw_images.c:675-681 | a job's minute is after the current one and at most 59 s before the window's start, or before a minute from now when the start is sooner |
| Activation.ScheduledJob | src/fw_images.c:673-695 | each job of a schedule from the arguments and the clock alone: minute, length and everything the handler is given, with force only for the last |
| Activation.WorstOverlapIsExact | src/fw_images.c:675-688 | the worst overlap of two handlers bounds every forward clock and is reached |
| Activation.OverlapsBelowMinuteIff | src/fw_images.c:675-688 | overlaps stay below a minute for every clock if and only if the worst one does; always for starts >= 60, and never two minutes |
| Activation.ScheduleOverlap | src/fw_images.c:673-695 | with starts >= 60 any two scheduled handlers overlap by less than 60 s |
| Activation.ClampedWindowOverlaps | src/fw_images.c:676-688 | windows 0-3600 and 3600-7200 overlap by a full minute |
| ActivateHandler.HandleWhenIdleMode | src/files/usr/share/bbfdm/scripts/bbf_activate_handler.sh:44-86 | the script's loop makes exactly the checks that begin in time while the device is busy, each at its time, and the attempt of the reference |
| ActivateHandler.ActivateAndRebootDevice | src/files/usr/share/bbfdm/scripts/bbf_activate_handler.sh:20-42 | it asks for its bank, and reboots exactly when the switch and any requested copy succeeded |
| ActivateHandler.CheckIsMadeIff | src/files/usr/share/bbfdm/scripts/bbf_activate_handler.sh:51-81 | a check is made if and only if it begins before the window's end and no earlier one found the device idle: the handler neither gives up early nor goes on too long |
| ActivateHandler.ActivatesWhenIdleIff | src/files/usr/share/bbfdm/scripts/bbf_activate_handler.sh:51-85 | a device idle at any check that begins in time is activated, and otherwise only force activates it |
| ActivateHandler.RunHandler | src/files/usr/share/bbfdm/scripts/bbf_activate_handler.sh:94-104 | an attempt is made at once in two modes and in WhenIdle exactly on a missing script, an idle check or force; always for the job's bank, and with its configuration flag unless the device was idle |
| ActivateHandler.ChecksAreBounded | src/files/usr/share/bbfdm/scripts/bbf_activate_handler.sh:55-81 | at most max(2, ceil(end / 300)) checks, all but the first before the window's end |
| ActivateHandler.AttemptIff | src/files/usr/share/bbfdm/scripts/bbf_activate_handler.sh:51-85 | an attempt is made exactly when the idle script cannot be run, a check reports idle, or force is set; only force passes the configuration on |
| ActivateHandler.NeverIdleAttempt | src/fw_images.c:689 | when the device is never idle a window activates exactly when its mode does not wait, or it is the schedule's last and has mode WhenIdle |
| ActivateHandler.NeverIdleAttempts | src/fw_images.c:673-695 | the whole schedule then makes one attempt for each window that does not wait, and one more when the last has mode WhenIdle |
| ActivateHandler.OnlyLastWindowForces | src/fw_images.c:689 | a never idle device is activated once by windows that all wait if the last has mode WhenIdle, and otherwise never |
| ActivateHandler.ChecksStayInWindow | src/fw_images.c:680-692 | every idle check of one window starts less than a minute into any later one, each handler timed from its job's minute |
| Reboots.RebootLog.IncrementOptionCounter | src/reboots.c:37-47 | below the largest int the stored counter reads back as its successor, and every other counter stays |
| Reboots.RebootLog.DeleteExcessRebootSections | src/reboots.c:112-153 | the two loops remove the oldest sections, one more than the excess |
| Reboots.RebootLog.CreateRebootSection | src/reboots.c:155-180 | the new section, its cause, and the use of the cause left behind |
| Reboots.RebootLog.CountBoot | src/reboots.c:196-212 | the counters a boot changes, in the code's order |
| Reboots.RebootLog.RegisterBootAction | src/reboots.c:182-224 | a locked boot changes nothing; otherwise it is counted, recorded if allowed, and locked |
| Reboots.RebootLog.RebootsInit | src/reboots.c:255-279 | an init call returns, registers or retries |
| Reboots.RebootLog.SetMaxRebootEntries | src/reboots.c:341-383 | the loops keep the newest sections the value allows and store it |
| Reboots.RebootLog.RemoveAllReboots | src/reboots.c:429-437 | no section is left |
| Reboots.RebootLog.RemoveReboot | src/reboots.c:439-443 | putting the removed section back at its place gives the old history: one section goes and the order stays |
| Reboots.RebootLog.SetLastRebootCause | src/fw_images.c:138-152 | the cause that the next boot will record: the one left, LocalReboot once it is taken back, FactoryReset whatever was left |
| RebootRuns.RegisteredOncePerBoot | src/reboots.c:186-190 | between power cycles at most one boot is registered, across any daemon restarts |
| RebootRuns.InitLocksIff | src/reboots.c:255-279 | an init call registers and locks an unregistered boot if and only if the file gives a reason or fifteen retries are used up; otherwise only retries and timer change |
| RebootRuns.ReasonRegisters | src/reboots.c:262-266 | one init call that finds a reason registers the boot exactly once, whatever calls and restarts come before or after |
| RebootRuns.EntryTells | src/reboots.c:155-180 | name, time, update flag, cause and message of a new section, from the file, the clock and the cause left |
| RebootRuns.CapOfStored | src/reboots.c:112-220 | a stored maximum stands for no section at 0, for 32 when negative, for itself otherwise, and for three when never set |
| RebootRuns.RegisteredWithinSixteenCalls | src/reboots.c:262-278 | a daemon that keeps running registers by its sixteenth init call |
| RebootRuns.RetryIsPending | src/reboots.c:262-278 | once init was called, a daemon that keeps running has registered the boot or has its retry timer set |
| RebootRuns.CounterRoundTrip | src/reboots.c:37-47 | a counter printed and read back is its successor and the others stay |
| RebootRuns.CountersFollow | src/reboots.c:196-212 | over any run the stored counters are the tally of the registered boots |
| RebootRuns.BootCounterLaws | src/reboots.c:196-212 | cold + warm grows by one per boot, watchdog never faster than warm, boot_count counts since the last factory reset, and boot_count - curr_version_boot_count is constant, 1 after a reset |
| RebootRuns.CauseIsRemoteIff | src/reboots.c:170-177 | an entry says RemoteReboot exactly when the cause was left and the boot is no factory reset, which then uses it up |
| RebootRuns.TokenIsConsumed | src/reboots.c:170-177 | entries with cause RemoteReboot never outnumber the times the cause was left |
| RebootRuns.RegisteredBootKeepsNewest | src/reboots.c:214-220 | a boot keeps exactly the newest min(old, cap - 1) sections and appends its own; with cap 0 nothing changes |
| RebootRuns.CapChangeKeepsNewest | src/reboots.c:351-380 | a cap change keeps exactly the newest sections that the written value allows, for every value |
| RebootRuns.CapChangeIsWithinIff | src/reboots.c:214-379 | the history is within the stored maximum after a cap change if and only if what the written value keeps fits the value read back |
| RebootRuns.ValueIsSafeIff | src/reboots.c:214-379 | a value is safe for every history if and only if it allows no more than its stored text does |
| RebootRuns.LongMaximumExceedsCap | src/reboots.c:214-379 | ten sections and the value "0000000000000032" leave ten sections under a stored maximum that reads as 3 |
| RebootRuns.RegistrationMeetsCap | src/reboots.c:112-153 | a recorded boot brings any history within the cap |
| RebootRuns.HistoryIsBoundedIff | src/reboots.c:112-383 | once within the cap, the history is within it after every step of a run if and only if every cap change meets that condition |
| RebootRuns.HistoryIsBounded | src/reboots.c:112-383 | and then at the end of every run of boots, restarts, cap changes and removals |
| RebootRuns.HistoryIsNewest | src/reboots.c:133-145 | without single removals the history is always the newest part of everything ever created |
| FirmwareImages.Images.GetFwbankBankId | src/fw_images.c:69-96 | the loop returns the id text of the first bank whose option is true |
| FirmwareImages.BankWithIs | src/fw_images.c:69-96 | the bank found is the first whose option reads "true", and none when no option does |
| FirmwareImages.Images.GetDeviceBootFwimage | src/fw_images.c:354-367 | the alias of the boot bank, or nothing |
| FirmwareImages.Images.SetAvailable | src/fw_images.c:481-515 | false is refused exactly for a boot or active bank; otherwise the bank's one section is written |
| FirmwareImages.Images.SetDeviceBootFwimage | src/fw_images.c:369-412 | which references fault, which bank is switched to, and when the configuration is copied |
| FirmwareImages.SwitchesToReferenced | src/fw_images.c:391-401 | on every table and for every lookup the bank switched to is the referenced one, bank 0 when it has no id, unless the section found says unavailable |
| FirmwareImages.OddReferences | src/fw_images.c:388-393 | an empty reference changes nothing, and one without a '-' is refused |
| FirmwareImages.WriteIsSafeIff | src/fw_images.c:387-511 | on every table and for every lookup a write keeps the boot bank available if and only if it is safe, a test that can be made before it |
| FirmwareImages.SwitchIsSafeIff | src/fw_images.c:395-398 | a switch to a bank with an id is safe exactly when the section found says unavailable if the bank's own one does |
| FirmwareImages.RunIsSafeIff | src/fw_images.c:387-511 | in a run of BootFirmwareImage and Available writes the boot bank is available after every write if and only if every write is safe where it is made |
| FirmwareImages.BootBankStaysAvailable | src/fw_images.c:387-511 | with ids that tell banks apart and find only their own sections, the boot bank is never marked unavailable in any run |
| FirmwareImages.ApartReadings | src/fw_images.c:395-500 | equality always finds only the own section, containment exactly when no id text is a proper part of another |
| FirmwareImages.ContainedIdIsNotChecked | src/fw_images.c:395-398 | by containment an unavailable bank 1 is switched to beside a section of bank 10; by equality it is refused |
| FirmwareImages.MissingIdSwitchesToZero | src/fw_images.c:391-401 | in both readings a bank without an id makes an unavailable bank 0 the boot bank |
| FirmwareImages.BootImageReadsBack | src/fw_images.c:354-412 | once switched to a bank with an id, BootFirmwareImage reads back as the alias written, whatever the other banks are |
| FirmwareImages.ActivateIsNotChecked | src/fw_images.c:701 | after Activate() the boot bank is available exactly when the activated one was |

## Left out

- Data-model getters, setters and leaf tables that only forward to the configuration: they would add only easy members.
- Network, temperature, hashing and configuration backup helpers: short parsing and shell calls.
- The download, backup and restore flows: straight-line network I/O with error exits.
- Real forks, pipes, /proc, JSON, ubus transport and cron: inputs and steps here.
- Output of a script in several chunks, of which the read loop keeps the last: one read is assumed.
- Calendar fields of a crontab line: a job has its minute since the epoch.
- The content of process entries: the list holds them, and only their number is announced.
- Allocation failures, except the one that cuts a process listing short.
- Log files and log text, and the arguments of Activate() that the handler does not use.
- HandleWhenIdleMode: the clock is assumed never to go back and each sleep to last at least 300 seconds.
- BootCounterLaws: counters are assumed to stay below 2^31.
- CacheIsCoherent: assumes that the daemon keeps running, that dumps exit in the order they were started, that scripts
  report a change exactly when they make one, and that the Available event of a completed upgrade is accepted before its
  listener lapses.
