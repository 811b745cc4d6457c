# LANKeeper in Dafny

A model of the parts of LANKeeper that keep state, allocate, schedule, compile or encode, with proofs
about whole runs and all inputs. Commands, file saves, clocks, generated keys and handler outcomes are
inputs; everything else is computed as the service computes it. `dafny verify dfyconfig.toml` checks all of it.

| module | models |
|---|---|
| `RateLimiter` | the web token bucket and its eviction of idle clients |
| `StaticDns` | the mirror of static DHCP leases in the shared DNS record list |
| `AgentRpc` | the agent's JSON-RPC client and server, step by step over connections |
| `PolicyRouting` | the compiler from routing policies to one nft chain, and the policy order |
| `UpdateProtocol` | over-the-air update: apply, watchdog, confirm, rollback, restart |
| `FirewallChange` | firewall apply, confirm, rollback and the 30-second timers |
| `CronSchedule`, `Calendar` | cron fields, the search for the next minute, the scheduler loop |
| `Invites`, `SignedToken`, `Cidrs` | site-to-site invites, their tokens, subnet overlap |
| `DohStamp`, `Base64Url` | DNS-over-HTTPS stamps and their text form |
| `PrefixDelegation` | SLA-ID assignment for delegated IPv6 prefixes |
| `Printers` | the hand-written Prometheus label and JSON string printers |
| `Text`, `Arith` | the Go string functions used above, and facts about division |

Services whose methods change fields are classes whose methods are proved against functions on values;
the theorems about runs are lemmas about those functions. Lemmas named `...Means` tie a function to a description that
does not use it, field by field, bit by bit or text by text.

## What turned out to need a condition

Several natural claims fail for some inputs. Each is proved as an equivalence with the exact condition, and each
has a lemma with an input at which the claim fails (in parentheses after the equivalence).

- The rate limiter keeps its counting bound, and eviction stays invisible, exactly when `burst >= 1` and
  `300 * rate >= burst` (`WindowLawIff`, `EvictionInvisibleIff`; `NoRefillDoubles`), and these are also the limiters that allow exactly the calls
  the bound leaves room for (`ExactLawIff`). Tokens stay in
  [0, burst] exactly when `burst >= 1` and `rate >= 0` (`TokensInRangeIff`; `NoBurstOverdraws`, `NegativeRateOverdraws`).
- Removing a lease keeps the DNS mirror in sync exactly when it names no host, its name is not mirrored, or nothing
  waits for what it frees: no other lease has its hostname, and, if the list is full, no lease is left out
  (`RemoveKeepsSyncIff`; `SharedHostBreaks`, `FullListBreaks`). Adding one always does (`AddKeepsSync`).
- When a save fails the lease changes and its record does not. The list then stays in sync, for an add, exactly when the
  lease would have had no record (`UnsavedAddInSyncIff`; `UnsavedAddBreaks`), and for a removal exactly when the record was
  not the lease's own or a twin takes its place (`UnsavedRemoveInSyncIff`; `UnsavedRemoveBreaks`).
- A rollback restores the binary from before an apply exactly when no later apply, failed or not, reached its backup
  copy, or the last that did copied that same binary (`RollbackRestoresIff`; `FailedApplySpoilsBackup`).
- A pending update stays watched by a live watchdog exactly until a rollback of it fails (`GuardStepIff`;
  `FailedRollbackStrands`).
- A confirmed update is settled exactly when its backup file is gone (`UpdateProtocol.ConfirmSettlesIff`, `ConfirmedBinaryStays`;
  `UnremovedBackupUndoesConfirm`), and a second apply strands a watchdog exactly when one is live
  (`ApplyKeepsSoloIff`; `StrayWatchdogStrikesEarly`).
- A confirmed ruleset is settled exactly when its own timer has not expired and no timer of an earlier change is
  pending (`FirewallChange.ConfirmSettlesIff`; `SecondApplyUndoesConfirm`).
- `parseField` panics exactly when an atom's step overflows its start (`ParseFieldPanicsIff`, `StepPanicsIff`;
  `LargestStepPanics`): the wrapped loop variable becomes a negative shift count.
- After a firing the scheduler searches from one minute later and so skips the next minute exactly when it matches
  (`SkipsNextMinuteIff`; `EveryMinuteSkips`). Left to itself it serves every matching minute exactly when the schedule
  never matches two minutes in a row (`ServesAllIff`; `EveryMinuteLosesRuns`).
- `AddPeer` keeps addresses and names distinct exactly when the name and the list-length address are free
  (`AddPeerHealthyIff`; `AddPeerCollides`).
- `addressToSubnet` keeps the network exactly for prefixes up to /24 or low last numbers (`SubnetKeptIff`; `HighHalfMoves`).
- A stamp keeps its endpoint exactly when host and path fit in 127 bytes and the path is slash-led
  (`StampRoundTripIff`; `LongHostBarePath`).
- Announced SLA-IDs are distinct exactly when, among the VLANs whose mapped number fits, no mapped number is the LAN's,
  another VLAN's or the place of a VLAN without a number (`DistinctIff`; `PartialOrderClashes`).

Where code and comments differ the code is followed: `Next` is strictly after its argument
(internal/services/backup_schedule.go:167 says at or after), and ranges and single values accept a step
(internal/services/backup_schedule.go:125 says only `*/k` does).

## Model

| member | source | states |
|---|---|---|
| `RateLimiter.Limiter.Allow` | internal/web/middleware.go:145-172 | the answer and the new bucket map of one call, on which the run theorems are proved |
| `RateLimiter.ExactLawIff` | internal/web/middleware.go:130-172 | in every run a call is allowed exactly when every window ending with it, itself included, stays within burst + rate·length, if and only if burst ≥ 1 and 300·rate ≥ burst |
| `RateLimiter.Limiter.Cleanup` | internal/web/middleware.go:130-143 | whatever order the map is walked in, exactly the buckets idle for more than 300 s go |
| `RateLimiter.SaneStep` | internal/web/middleware.go:136-170 | with burst ≥ 1 and rate ≥ 0 every step keeps all tokens in [0, burst] |
| `RateLimiter.TokensInRangeIff` | internal/web/middleware.go:130-172 | after every run, evicting or not, all tokens lie in [0, burst], if and only if burst ≥ 1 and rate ≥ 0 |
| `RateLimiter.SpendStep` | internal/web/middleware.go:136-170 | a step lowers what a client could spend by exactly what it allowed; eviction by nothing |
| `RateLimiter.WindowLawIff` | internal/web/middleware.go:130-172 | for every client, run and window [s,t] at most burst + rate·(t−s) calls pass, if and only if burst ≥ 1 and 300·rate ≥ burst |
| `RateLimiter.NoRefillDoubles` | internal/web/middleware.go:130-172 | rate 0 and burst 1: two calls pass where the bound is one |
| `RateLimiter.EvictionInvisibleIff` | internal/web/middleware.go:130-172 | the evicting limiter answers every run as one that never evicts, under exactly the same condition |
| `StaticDns.Services.AddStaticRecord` | internal/services/dns.go:625-643 | appended unless the list is full or the name exists up to case; which error when; kept in memory even if the save fails |
| `StaticDns.Services.RemoveStaticRecord` | internal/services/dns.go:645-657 | exactly the indexed record goes, whether or not the save succeeds |
| `StaticDns.Services.FindStaticRecordIndexBySource` | internal/services/dns.go:568-581 | the first record of that source and name up to case, or -1 when there is none |
| `StaticDns.Services.AddStaticLease` | internal/services/dhcp.go:270-302 | is the add step of the run theorems, saved or not: refused exactly on a reserved MAC or address; a failed save keeps the lease and skips the mirror |
| `StaticDns.Services.RemoveStaticLease` | internal/services/dhcp.go:304-328 | is the remove step, saved or not: the lease goes, and with it the first mirrored record of its name unless the save fails |
| `StaticDns.Services.SyncStaticDNSRecords` | internal/services/dhcp.go:330-371 | terminates and is the Sync step: the rebuild, or, when a save fails at the strip, the list without the records stripped so far |
| `StaticDns.RebuildIdempotent` | internal/services/dhcp.go:334-371 | a rebuild keeps foreign records, is idempotent and is in sync |
| `StaticDns.RebuildContents` | internal/services/dhcp.go:351-369 | with room, the mirrored records are exactly hostname.domain (or .lan) at the address of each lease whose hostname no other source and no earlier lease has |
| `StaticDns.AddKeepsSync` | internal/services/dhcp.go:279-302 | an add keeps any list in sync, duplicates and a full list included |
| `StaticDns.UnsavedAddInSyncIff` | internal/services/dhcp.go:284-286 | after a failed save the list is in sync exactly when the lease names no host, the list is full or the name is taken |
| `StaticDns.UnsavedAddBreaks` | internal/services/dhcp.go:284-286 | the first lease, not saved: a rebuild would mirror it |
| `StaticDns.UnsavedRemoveInSyncIff` | internal/services/dhcp.go:308-315 | a removal whose save fails keeps the list in sync exactly when the lease has no record of its own, or the next lease to add anything has the same hostname and address |
| `StaticDns.UnsavedRemoveBreaks` | internal/services/dhcp.go:308-315 | a single mirrored lease, removed without a save: its record stays |
| `StaticDns.RemoveKeepsSyncIff` | internal/services/dhcp.go:308-327 | however full the list, a removal keeps it in sync exactly when the lease names no host, its name is not mirrored, or no other lease waits for its name or, in a full list, for its place |
| `StaticDns.SharedHostBreaks` | internal/services/dhcp.go:320-326 | two leases of one hostname: removing the second takes the first one's record |
| `StaticDns.FullListBreaks` | internal/services/dhcp.go:308-327 | in a full list, removing a lease of its own hostname leaves another lease without the record a rebuild gives it |
| `StaticDns.StepKeepsSyncIff` | internal/services/dhcp.go:270-371 | the exact condition for each operation, saved or not, and for a Sync |
| `StaticDns.RunStaysInSync` | internal/services/dhcp.go:270-371 | any run of operations that meet it leaves exactly the records a rebuild would give |
| `StaticDns.SyncHeals` | internal/services/dhcp.go:330-371 | whatever happened before, a Sync that gets through its strip and then such operations end in sync |
| `StaticDns.DistinctHostsCareful` | internal/services/dhcp.go:270-371 | from a list in sync, any run whose saves succeed and which at each removal finds the present leases with hostnames distinct up to case and room for all of them ends in sync |
| `StaticDns.RunKeepsForeign` | internal/services/dhcp.go:270-371 | no run of lease operations and Syncs, whichever saves fail, changes, drops or reorders another source's record |
| `AgentRpc.Agent.Call` | internal/agent/client.go:30-83 | from any reachable state one call takes only protocol steps, finishes once, and returns a value exactly when its own request arrived, was handled by a registered handler with that value, and the reply came back over an unbroken connection before the read |
| `AgentRpc.UnbrokenRoundTrip` | internal/agent/client.go:30-83 | when every step succeeds the call returns the registered handler's answer |
| `AgentRpc.StageMeans` | internal/agent/server.go:107-125 | where a request is, from what the server loop of its connection has done so far |
| `AgentRpc.ConnectionMeans` | internal/agent/client.go:62-116 | the client drops its connection exactly on a failed write or read and on Close, and keeps it after an error response |
| `AgentRpc.Dispatch` | internal/agent/server.go:127-162 | a result exactly for version 2.0, a registered method and a handler that succeeds; otherwise the error code of the first check that fails; always the request's ID |
| `AgentRpc.Agent.HandleConn` | internal/agent/server.go:107-125 | the loop takes only protocol steps, whatever others do meanwhile, and stops only when the connection is gone |
| `AgentRpc.Agent.Close` | internal/agent/client.go:85-89 | is the close step: the connection is dropped and nothing else changes |
| `AgentRpc.ServerSideKeepsClient` | internal/agent/client.go:31-32 | while a caller holds the mutex nothing else moves the client's fields |
| `AgentRpc.LiveConnStep` | internal/agent/client.go:30-116 | the client's connection is quiet or carries one message, of the waiting caller, after every step |
| `AgentRpc.DispatchOnceStep` | internal/agent/server.go:107-125 | undispatched requests have pairwise different IDs that the log does not have, after every step |
| `AgentRpc.CallsGetOwnResult` | internal/agent/client.go:30-83 | in every interleaved run a returned value is the handler's answer to that very request, dispatched once, under the request's ID |
| `AgentRpc.DispatchedAtMostOnce` | internal/agent/server.go:107-162 | no run dispatches a request twice |
| `PolicyRouting.RoutingService.GenerateFullNftChain` | internal/services/routing.go:181-245 | the emitted chain treats every packet as the policies mean |
| `PolicyRouting.PolicyMeaning` | internal/services/routing.go:187-240 | one policy's lines mark what it selects in its window and drop only listed sources outside it under another mark |
| `PolicyRouting.ChainMeaning` | internal/services/routing.go:181-245 | a surviving packet carries, and saves, the mark of the last policy that applies; dropped exactly when some kill switch catches it |
| `PolicyRouting.FindTunnelMeans` | internal/services/routing.go:353-365 | none exactly when no tunnel has the name, else table and fwmark of the first WireGuard client of that name, or of the first OpenVPN client when there is none |
| `PolicyRouting.MarkOfMeans` | internal/services/routing.go:187-204 | a policy's mark is the fwmark of the tunnel it names, if it is enabled |
| `PolicyRouting.AppliesMeans` | internal/services/routing.go:205-240 | in the policy's own fields: a packet is selected by a listed source or target inside the hours, and threatened by a listed source outside them |
| `PolicyRouting.WindowMeans` | internal/services/routing.go:318-332 | "start-end" with both ends given means from start on and before end; any other schedule restricts nothing |
| `Text.SplitMeans` | internal/services/routing.go:319 | joining what Split gives with the separator restores the text |
| `PolicyRouting.SetNameMeans` | internal/services/routing.go:367-370 | blanks, dashes and dots become underscores, nothing else changes |
| `PolicyRouting.RoutingService.GetPolicies` | internal/services/routing.go:31-43 | a permutation of the policies, ordered by priority |
| `PolicyRouting.RoutingService.UpdatePriorities` | internal/services/routing.go:80-95 | named policies get 10, 20, ... by position; duplicates resolve to the last, others keep theirs |
| `PolicyRouting.RenumberedMeans` | internal/services/routing.go:80-95 | the last policy of a name gets 10 times its last position in the order, counted from 1, and nothing else changes |
| `PolicyRouting.ReorderTakesEffect` | internal/services/routing.go:31-43 | after a reorder naming every policy once, any sorted listing shows exactly that order |
| `UpdateProtocol.UpdateService.constructor` | internal/services/update.go:353-383 | a new process restores the pending update and re-arms its watchdog from the state file alone |
| `UpdateProtocol.UpdateService.ApplyUpdate` | internal/services/update.go:181-277 | every failure point, what each failed copy leaves torn, and the undo; success exactly when all commands succeed |
| `UpdateProtocol.ApplyInstalls` | internal/services/update.go:217-267 | success installs the new binary, backs up the old one and records the update; failure leaves all but the two binaries |
| `UpdateProtocol.UpdateService.ConfirmUpdate` | internal/services/update.go:279-303 | cancels, removes the backup if it can, forgets the pending update |
| `UpdateProtocol.UpdateService.RollbackUpdate` | internal/services/update.go:305-338 | restores the backup, or keeps the update pending when the copy fails |
| `UpdateProtocol.RestartArms` | internal/services/update.go:372-380 | a restart arms exactly one watchdog, for the later of restart and AppliedAt + 60 s |
| `UpdateProtocol.RunKeepsDeadline` | internal/services/update.go:181-383 | in every run the cancellable watchdog has exactly that deadline |
| `UpdateProtocol.ApplyKeepsSoloIff` | internal/services/update.go:264-267 | a successful apply leaves a stray watchdog exactly when one was live |
| `UpdateProtocol.StrayWatchdogStrikesEarly` | internal/services/update.go:264-267 | two applies within a minute: the first watchdog rolls the second update back 50 s before its deadline |
| `UpdateProtocol.NeverEarly` | internal/services/update.go:340-383 | without overlapping applies no live watchdog rolls back before the deadline |
| `UpdateProtocol.GuardStepIff` | internal/services/update.go:305-338 | a step keeps a pending update watched by a live, cancellable watchdog exactly when it is not a failing rollback of it |
| `UpdateProtocol.PendingIsWatched` | internal/services/update.go:181-383 | in every run without such a failure, restarts and overlapping applies included, a pending update has a live watchdog with the promised deadline, whose expiry with a good copy ends it |
| `UpdateProtocol.FailedRollbackStrands` | internal/services/update.go:309-320 | an expiry whose copy fails leaves the update pending and unwatched |
| `UpdateProtocol.RollbackRestoresIff` | internal/services/update.go:217-351 | after an apply and any run, further applies included, a rollback or expiry whose copy succeeds ends the pending update and restores the binary from before that apply exactly when no later apply reached its backup copy or the last that did copied that binary |
| `UpdateProtocol.RollbackRestores` | internal/services/update.go:305-351 | so it restores it whenever every apply in between that reached its backup copy found the old binary installed |
| `UpdateProtocol.FailedApplySpoilsBackup` | internal/services/update.go:217-228 | an attempt that fails while an update is pending makes the watchdog restore the unconfirmed binary |
| `UpdateProtocol.ApplyKeepsOldBinary` | internal/services/update.go:217-258 | however an apply ends the old binary survives under one of its two names |
| `UpdateProtocol.SettledIff` | internal/services/update.go:305-351 | no apply-free run changes the binary, if and only if no backup file is left |
| `UpdateProtocol.ConfirmSettlesIff` | internal/services/update.go:279-351 | after a confirm, exactly when it removed the backup or there was none |
| `UpdateProtocol.ConfirmKeepsFiles` | internal/services/update.go:288-292 | a confirm removes the backup, if it can, and changes no other file |
| `UpdateProtocol.ConfirmedBinaryStays` | internal/services/update.go:181-303 | apply, anything but a rollback, confirm: the new binary is installed, and stays through every apply-free continuation exactly when the backup is gone |
| `UpdateProtocol.ConfirmForgetsIff` | internal/services/update.go:293-300 | after a confirm no apply-free continuation makes an update pending, exactly when the state file was cleared or held none |
| `UpdateProtocol.RollbackForgetsIff` | internal/services/update.go:322-336 | the same after a rollback whose copy succeeds |
| `UpdateProtocol.EndStopsWatchdog` | internal/services/update.go:283-286 | a confirm and a rollback leave no live watchdog when the service knew the only one |
| `UpdateProtocol.OtherFilesKept` | internal/services/update.go:181-351 | no run touches a file other than the binary and its backup |
| `UpdateProtocol.UnremovedBackupUndoesConfirm` | internal/services/update.go:285-300 | a confirm that could not remove the backup is undone by a late rollback |
| `FirewallChange.AtomicChange.Rollback` | internal/netutil/atomic.go:96-130 | the ruleset and the change after each way the three commands can end |
| `FirewallChange.FirewallService.Apply` | internal/services/firewall.go:86-118 | is the apply step of the run theorems: failure leaves ruleset, current change and timers alone, success replaces ruleset and change and starts a timer |
| `FirewallChange.FirewallService.Confirm` | internal/services/firewall.go:120-128 | is the confirm step: stops the current change's timer only, and drops it |
| `FirewallChange.FirewallService.Rollback` | internal/services/firewall.go:130-140 | is the rollback step: rolls the current change back once and drops it even on failure |
| `FirewallChange.FirewallService.TimerExpires` | internal/netutil/atomic.go:73-83 | is the expiry step of any change's timer, dropped changes included |
| `FirewallChange.FirewallService.TimerRollsBack` | internal/netutil/atomic.go:77-82 | is the callback's rollback step of an expired change |
| `FirewallChange.SettledIff` | internal/netutil/atomic.go:73-130 | with no current change, the ruleset stays until the next apply, if and only if no pending timer holds a snapshot |
| `FirewallChange.ConfirmSettlesIff` | internal/services/firewall.go:120-128 | a confirm settles the ruleset exactly when its own timer has not expired and no stranded timer is pending |
| `FirewallChange.SerialConfirmSettles` | internal/services/firewall.go:86-128 | in every run whose applies wait for earlier timers, a confirm not overtaken by an expiry settles the ruleset |
| `FirewallChange.RulesetMeans` | internal/netutil/atomic.go:55-130 | what each step leaves loaded: an apply its rules, a restore a snapshot or nothing, everything else the same |
| `FirewallChange.ChangesMean` | internal/netutil/atomic.go:73-130 | which timers each step stops or lets expire, and which changes it undoes |
| `FirewallChange.CurrentMeans` | internal/services/firewall.go:86-140 | the current change is the last one loaded until it is confirmed or rolled back |
| `FirewallChange.ConfirmedRulesetStays` | internal/services/firewall.go:86-128 | applied with no earlier timer pending and confirmed, the new ruleset is loaded and stays until the next apply |
| `FirewallChange.SecondApplyUndoesConfirm` | internal/services/firewall.go:110-114 | two applies in a row: the confirmed second ruleset is not settled |
| `FirewallChange.RestoreBringsBack` | internal/netutil/atomic.go:96-130 | from any later state a rollback or expiry brings back the ruleset from before the apply, or leaves the present one or none; without a snapshot it leaves the present one |
| `CronSchedule.AddProgression` | internal/services/backup_schedule.go:157-159 | adds the whole progression, or panics exactly when the step wraps |
| `CronSchedule.ParseField` | internal/services/backup_schedule.go:115-165 | the non-empty union of the atoms' progressions, malformed or panicking at the first bad atom |
| `CronSchedule.AtomMeans` | internal/services/backup_schedule.go:122-156 | "*", "lo" and "lo-hi", with or without "/step", denote the progressions they name; step 0 and spans outside the range are malformed |
| `CronSchedule.FieldMeans` | internal/services/backup_schedule.go:115-165 | atoms written with commas parse to exactly the values that some atom hits |
| `CronSchedule.ParseFieldPanicsIff` | internal/services/backup_schedule.go:126-159 | panics exactly when an atom before any bad one has lo + step above the largest int |
| `CronSchedule.StepPanicsIff` | internal/services/backup_schedule.go:126-159 | a start with a step panics exactly when their sum exceeds the largest int |
| `CronSchedule.LargestStepPanics` | internal/services/backup_schedule.go:157-159 | the minute field "1/9223372036854775807" panics |
| `CronSchedule.ParsedWellFormed` | internal/services/backup_schedule.go:80-113 | every field of a parsed schedule is non-empty and in range |
| `CronSchedule.SpecMeans` | internal/services/backup_schedule.go:80-113 | five words are a schedule exactly when each parses as the field of its place |
| `CronSchedule.MacrosMean` | internal/services/backup_schedule.go:51-79 | the named schedules are the specs they stand for |
| `CronSchedule.MatchMeans` | internal/services/backup_schedule.go:188-215 | minute m of hour h of a day matches exactly when each field has it and the day is allowed: both day fields agree, or either does when both are restricted |
| `CronSchedule.FindNext` | internal/services/backup_schedule.go:172-186 | the loop computes the search that the next rows characterise |
| `CronSchedule.NextIsLeast` | internal/services/backup_schedule.go:172-215 | the least matching whole minute strictly after the instant, none exactly when none lies before instant + 1460 days |
| `CronSchedule.FiresWithinAWeek` | internal/services/backup_schedule.go:172-215 | with all months, and a restricted weekday or no restricted day, the next firing is within seven days |
| `CronSchedule.Scheduler.HandleTick` | internal/services/backup_schedule.go:255-275 | the new plan and the firing of one tick |
| `CronSchedule.FiringFollowsSchedule` | internal/services/backup_schedule.go:248-276 | in every run each firing happens at a tick, for a whole minute that was the next match of the schedule configured at that tick or an earlier one, counted from that tick or, after a firing, from a minute later; the schedule was on ever since, and no run was recorded after the target |
| `CronSchedule.FiringsOrdered` | internal/services/backup_schedule.go:248-276 | in every run targets strictly increase, each after the tick of every earlier firing and not after its own |
| `CronSchedule.ServesAllIff` | internal/services/backup_schedule.go:255-275 | with one schedule, ticks at most a minute apart and no interfering manual run, every matching minute fires exactly once in every run, if and only if no two adjacent minutes match |
| `CronSchedule.EveryMinuteLosesRuns` | internal/services/backup_schedule.go:269-274 | "* * * * *" does not fire every minute |
| `CronSchedule.SkipsNextMinuteIff` | internal/services/backup_schedule.go:269-274 | after a firing the true next match is kept exactly when the next minute does not match |
| `CronSchedule.EveryMinuteSkips` | internal/services/backup_schedule.go:269-274 | the every-minute schedule at midnight of day 0: the first minute is skipped |
| `Calendar.DatesAdvance` | internal/services/backup_schedule.go:195-202 | the calendar behind Month, Day and Weekday: Monday, 1 January of year 1, each day followed by its tomorrow and each weekday by the next |
| `Invites.VpnService.NextTunnelIP` | internal/services/vpn_s2s.go:198-214 | the lowest unused host in 2..254, none exactly when all are used |
| `Invites.ReadLocalSubnets` | internal/services/vpn_s2s.go:181-193 | the subnets of the LAN interfaces in order, then the server's own |
| `Invites.VpnService.CreateS2SInvite` | internal/services/vpn_s2s.go:246-326 | exactly when it refuses, subnet conflicts included; the pending peer and the token; the peer stays even if saving fails |
| `Invites.VpnService.ConsumeInvite` | internal/services/vpn_s2s.go:333-399 | exactly when it joins, subnet conflicts included; the finished peer and the ack |
| `Invites.VpnService.FinalizeInvite` | internal/services/vpn_s2s.go:405-441 | only a matching ack for a pending peer changes anything, and then only that peer; which error when |
| `Invites.VpnService.CancelInvite` | internal/services/vpn_s2s.go:446-460 | removes the named peer only while pending; no error when it is gone, one when it is finished or unsaved |
| `Invites.CollectExpired` | internal/services/vpn_s2s.go:467-476 | in place, exactly the unexpired peers remain, in order |
| `Invites.VpnService.GCExpiredInvites` | internal/services/vpn_s2s.go:464-482 | the same for the service, with the number reaped |
| `Invites.VpnService.RemovePeer` | internal/services/vpn.go:297-308 | removes the first peer of that name, whether or not the save succeeds; reports when there is none |
| `Invites.RemovalMeans` | internal/services/vpn_s2s.go:446-460 | removing a name leaves exactly the peers of other names in order; cancelling one too, unless its peer is finished, when nothing changes |
| `Invites.RemovalFreesAddress` | internal/services/vpn_s2s.go:198-214 | the tunnel address of a removed peer is free, and the next invite takes it or a lower one |
| `Invites.InviteLastsAnHour` | internal/services/vpn_s2s.go:467-476 | an invite is collected exactly after an hour from the start of its second, a finished peer never |
| `Invites.AllowedRoutes` | internal/services/vpn_s2s.go:270-273 | a peer's AllowedIPs read back as its tunnel address and the subnets given |
| `Invites.HostMeans` | internal/services/vpn_s2s.go:202-206 | the address read out of any list that starts with one, with or without a mask |
| `Invites.HostOfAllowed` | internal/services/vpn_s2s.go:202-206 | the address read back from a fresh AllowedIPs list is the one allocated |
| `Invites.OpensSigned` | internal/services/vpn_s2s.go:99-176 | for any MAC and any codec that reads back what it writes, a signed payload opens to itself, as its own kind and schema only, under keys with its MAC |
| `Invites.IssuedTokensParse` | internal/services/vpn_s2s.go:138-176 | the text of an issued invite parses as invite until it expires and never as ack; that of an ack as ack and never as invite |
| `Invites.RunHealthy` | internal/services/vpn_s2s.go:246-482 | every run keeps names and tunnel addresses distinct, pending ⇔ has expiry, pending ⇒ no key |
| `Invites.RunSpares` | internal/services/vpn_s2s.go:405-482 | a peer, key included, survives unchanged every run that does not name or outlive it |
| `Invites.Handshake` | internal/services/vpn_s2s.go:99-441 | on token texts between routers with one secret: after create, any sparing run, consume and finalize, both hold the generated preshared key and the lowest free tunnel address, each routes the subnets meant for it, the originator holds the generated public key, and its networks do not overlap the joining side's |
| `Invites.AddPeerHealthyIff` | internal/services/vpn.go:257-291 | AddPeer keeps the list distinct exactly when its name and length-based address are free |
| `Invites.AddPeerCollides` | internal/services/vpn.go:265 | add two, remove the first, add one: two peers have 10.10.11.3 |
| `Base64Url.RoundTrip` | internal/services/vpn_s2s.go:108-127 | decoding an encoding gives the bytes back |
| `Base64Url.Alphabet` | internal/services/vpn_s2s.go:108-110 | the alphabet of section 5 of RFC 4648 |
| `Base64Url.GroupMeans` | internal/services/vpn_s2s.go:108-110 | groups keep their bits in order; short ones are filled up with zeros |
| `SignedToken.VerifiesIff` | internal/services/vpn_s2s.go:99-134 | a token verifies, to the identical body, exactly under keys with the same MAC |
| `SignedToken.VerifiedIff` | internal/services/vpn_s2s.go:114-134 | exactly which texts verify to a body, whoever wrote them: one separator, that body before it, its MAC under the verifier's key after it |
| `Cidrs.OverlapIff` | internal/services/vpn_s2s.go:222-233 | two blocks share an address exactly when one holds the other's base |
| `Cidrs.ContainsMeans` | internal/services/vpn_s2s.go:222-233 | a block contains the addresses of its family that agree with its own in the first bits |
| `Cidrs.SubnetsConflict` | internal/services/vpn_s2s.go:219-237 | reports a remote subnet exactly when some remote and some local block of one family share an address, and then the first such |
| `Cidrs.SubnetText` | internal/services/vpn.go:361-371 | on dotted quads only the last number is zeroed, the mask kept or /24 |
| `Cidrs.NoDotNoChange` | internal/services/vpn.go:361-371 | an address without a dot is left alone |
| `Cidrs.SubnetKeptIff` | internal/services/vpn.go:361-371 | the masked network is kept exactly up to /24 or for a small last number |
| `Cidrs.HighHalfMoves` | internal/services/vpn.go:361-371 | 10.0.0.130/25 becomes 10.0.0.0/25, another network |
| `DohStamp.ReadLP` | internal/services/doh.go:316-326 | the cursor moves forward and stays in the buffer |
| `DohStamp.SkipVLP` | internal/services/doh.go:331-347 | terminates on all bytes and ends where the list ends |
| `DohStamp.DecodeDoHStamp` | internal/services/doh.go:271-310 | computes the decoding the next rows invert, errors included |
| `DohStamp.DecodesIff` | internal/services/doh.go:271-347 | exactly which bytes decode, and to which host and path |
| `DohStamp.EncodedHead` | internal/services/doh.go:419-422 | the encoder writes protocol number, properties and address in front |
| `DohStamp.DecodesEncoded` | internal/services/doh.go:271-347 | any encoded stamp decodes to host and path, clipped and slash-led, whatever surrounds them |
| `DohStamp.StampRoundTripIff` | internal/services/doh.go:542-550 | the endpoint survives exactly when both parts fit and the path is slash-led |
| `DohStamp.LongHostBarePath` | internal/services/doh.go:542-550 | a host of 128 bytes loses one and a bare path gains a slash |
| `DohStamp.UrlRoundTrip` | internal/services/doh.go:395-429 | a stamp made from a URL's host and path parses back to them through base64url, exactly when both fit and the path is empty or slash-led |
| `PrefixDelegation.IPv6Service.BuildPrefixInterfaces` | internal/services/ipv6.go:769-818 | the announced list, on which the numbering theorems are proved |
| `PrefixDelegation.UsableMeans` | internal/services/ipv6.go:792-806 | a VLAN is considered, in its place, exactly when it has an ID, a tag and a parent with a device |
| `PrefixDelegation.ParentMeans` | internal/services/ipv6.go:796-802 | the parent's device is that of the first interface of its ID |
| `PrefixDelegation.AllAnnounced` | internal/services/ipv6.go:792-816 | with room for all, every usable VLAN is announced in order, on parent.tag, under its mapped number or its place |
| `PrefixDelegation.IPv6Service.ValidateSubnetMap` | internal/services/ipv6.go:654-680 | accepts exactly the maps with lan at 0, known keys and distinct non-negative values |
| `PrefixDelegation.IPv6Service.SetSubnetMap` | internal/services/ipv6.go:685-701 | replaces the map exactly when it is valid, and keeps it replaced when saving or re-applying fails |
| `PrefixDelegation.IPv6Service.HandleSubnetMap` | internal/web/handlers/ipv6.go:233-264 | takes over exactly good orders with valid maps, name to position; succeeds when save and apply do |
| `PrefixDelegation.OrderValid` | internal/web/handlers/ipv6.go:239-262 | every good order of known names passes validation |
| `PrefixDelegation.EntryAt` | internal/services/ipv6.go:790-816 | the k-th announced VLAN has its mapped ID or its position, never above the maximum |
| `PrefixDelegation.DistinctIff` | internal/services/ipv6.go:769-818 | for every configuration and every map, validated or not, IDs are distinct exactly when, among the usable VLANs whose mapped number fits, no mapped number is the LAN's, another VLAN's or the place of an unmapped one, and no unmapped one stands in the LAN's place |
| `PrefixDelegation.PartialOrderClashes` | internal/web/handlers/ipv6.go:239-262 | the accepted order ["lan", "b"] with VLANs a and b announces ID 1 twice |
| `PrefixDelegation.IdsInRange` | internal/services/ipv6.go:780-817 | every announced ID fits the subnet bits when lan is at 0 and no usable VLAN is mapped below 0 |
| `PrefixDelegation.DistinctDisjoint` | internal/services/ipv6.go:762-768 | distinct IDs in range give /64s inside the delegated prefix that share no address |
| `PrefixDelegation.PrefixMappedDistinct` | internal/services/ipv6.go:769-818 | lan at 0 and the first k usable VLANs mapped onto 1..k and no others: distinct IDs and disjoint /64s inside the prefix, whatever else the map holds and however many VLANs do not fit |
| `PrefixDelegation.ReorderAnnouncesDistinct` | internal/web/handlers/ipv6.go:226-264 | a submitted order of the first k usable VLANs is accepted and announced with distinct IDs and disjoint /64s |
| `Printers.EscapeLabelValue` | internal/services/metrics_exposition.go:222-248 | the loop computes the escaping that the next rows invert |
| `Printers.WriteLabels` | internal/services/metrics_exposition.go:199-211 | the label block of the given keys, empty without labels |
| `Printers.WriteMetric` | internal/services/metrics_exposition.go:188-212 | the whole sample: each label of the map once, in sorted order |
| `Printers.LeqMeans` | internal/services/metrics_exposition.go:197 | the order of names is lexicographic |
| `Printers.LabelsRoundTrip` | internal/services/metrics_exposition.go:188-248 | a reader of the text format gets the labels back, less control characters other than newline |
| `Printers.LabelsOneLine` | internal/services/metrics_exposition.go:214-221 | the block has no raw newline |
| `Printers.MetricRoundTrip` | internal/services/metrics_exposition.go:188-212 | a reader of sample lines, labelled or not, gets name, stripped labels and number back, and the line break at the end is the only one |
| `Printers.JsonString` | internal/web/handlers/vpn.go:362-388 | the loop computes the quoting that the next row inverts |
| `Printers.JsonRoundTrip` | internal/web/handlers/vpn.go:362-388 | a reader by section 7 of RFC 8259 gets every string back |

## Left out

- Command execution, sockets, systemd, kernel state and file formats: only success or failure is modelled, with `nft -f` replacing the ruleset or changing nothing.
- Float rounding, 64-bit overflow outside the cron step, clocks that run backwards, zones with changing or sub-minute offsets.
- Goroutine interleaving inside one operation of `UpdateProtocol`, `FirewallChange`, `StaticDns` and `Invites`: each holds its lock or is taken as one step; expiry and rollback of a timer are separate steps.
- Large JSON numbers re-encoded through `any` on the agent's results, and several clients of one agent: one client stands for all.
- Partial frames on a broken agent connection: a request or response is delivered whole or not at all.
- The field set is a `set<int>` instead of a 64-bit word; all members lie in 0..59, so no bit is lost.
- Text of JSON payloads and of nft scripts: any MAC and any codec that reads back what it writes stand for HMAC and JSON, rules are data, and what an address, port, set or hour match means is left to the packet.
- Two policies whose names sanitise to the same set name share that set; set contents are not modelled.
- Reading CIDR texts: any function from text to address blocks stands for net.ParseCIDR, which writes IPv4 in IPv6 form as IPv4.
- DohStamp.UrlRoundTrip: starts from the host and path that url.Parse yields; the URL grammar is not modelled.
- Printers.WriteMetric: takes the number as the text %g prints.
- The pre-update configuration backup, checksums, version comparison and boot branding of the updater.
- S3, SFTP and local backup targets, history trimming, lease-file and M3U parsing, monitoring, pages and scripts: plumbing or easy members.
- Path whitelists, host allowlists and probes of internal addresses: they depend on the file system and the resolver.
