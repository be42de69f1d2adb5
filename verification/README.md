# awg-easy-rs: a verified model of its decision procedures

awg-easy-rs is a web administration server for an AmneziaWG tunnel, written in Rust. This project
models the parts of it in which a decision, a state machine or a piece of exact arithmetic has to
be right on every input, and proves what they promise.

* **Firewall.** `Nft` gives the emitted fragment of nftables a packet semantics: ordered rules,
  conjunctive matches, accept, drop, jump with return, DNAT, and transactions that apply wholly or
  not at all. `TargetParser`, `ClientRules` and `DnsRules` compile rosters and lockdown settings to
  rules, `RebuildSpec` says what a rebuild does to a table, `FirewallRebuild` runs it as the source
  does, one nft call at a time with any call failing, `Transitions` says which tables look the same
  to packets, `ReachableTables` what runs of rebuilds establish, `ToggleOrder` what keeps the lockdown
  first, and `RunVerdicts` what becomes of every packet after any run.
* **Address pool.** `AddressPool` has first-free allocation under one lock on a table with UNIQUE
  columns; `Renumber` has the row-by-row renumbering of `change_cidr`.
* **Login.** `SlidingWindow` and `RateLimiter` have the swept, bounded attempt map; `Totp` has HOTP
  truncation, the skew window, the guess limiter and the single-use watermark; `Base32` the codec of
  the secrets; `Sessions` lazy expiry against the background sweep.
* **Supervisors.** `SupervisorSlot` has the lock sections and the backoff, `MdnsSupervisor` the single
  child with its watchdog, `DnsSupervisor` the two children that one reconcile pass touches together.
* **Exactness and durability.** `Rng` has rejection sampling, `Toml` the printing of strings into a
  configuration file, `Snapshot` the promotion of RAM database backups to disk.

Where the source updates objects in place, the model has a class whose methods run the same
sections and are proved against functions of the old state; the properties are then proved about
those functions, over every run.

## Findings

Some promises hold only under a condition. Each is stated with that condition, in both directions
where it is one call or one run shape, and with a concrete run that breaks it.

* Lockdown jumps are only ever appended. After any run of rebuilds that ends with the lockdown on, a DNS
  packet from the tunnel escapes exactly when it is of the family that is not redirected, filtering has
  been on without a break since before the last switching-on of the lockdown, and the access list
  allows it (`RunVerdicts.DnsLeaksIff`; `RunVerdicts.LockdownAfterFilteringLeaks` is the shortest run).
* The write-side check and the target parser differ on port 0 and on text around brackets; on
  entries without whitespace they agree exactly otherwise (`TargetParser.ValidatorMeansParser`). The
  comment at `src/api/clients.rs:892-896` says the check mirrors the parser; the code is followed. A
  protocol suffix on an entry without a port is ignored by the compiled rules.
* `change_cidr` fails part-way exactly when some client's new address is held by a client still to be
  moved (`Renumber.RefusedExactly`); two clients in the wrong order are enough
  (`Renumber.SwappedPairCollides`), and the clients moved so far stay moved.
* TOTP single use fails in two ways: a login reads the watermark while another login, or an enrolment
  past its verified flag, has yet to write it, and writes after it (`Totp.OverlappingLoginsReplay`,
  `Totp.EnrolmentCodeReplays`) or before it (`Totp.LoginOvertakesEnrolment`). Over whole runs and any
  interleaving it holds exactly when every login's conditional UPDATE changes the row, which the login
  could look at and does not, and no login writes ahead of an enrolment that had checked a step at or
  above its own before it read (`Totp.SingleUseIff`).
* A watchdog that runs late takes the record of its successor, because the take is not guarded by the
  process id; the next reconcile then starts a second child (`MdnsSupervisor.LateWatchdogOrphans`). Live
  children stay owned throughout a run exactly when no watchdog takes another, live child's record
  (`MdnsSupervisor.NoOrphanIff`).
* A child being stopped is taken for crashed exactly when its watchdog looks before the stop has raised
  the flag, which it does only after releasing the lock (`MdnsSupervisor.StopIsMissedIff`,
  `MdnsSupervisor.LateFlagRestarts`).
* `range_incl_i64` over more than 2^63 values overflows in builds with overflow checks, and over the
  whole i64 range always panics, because the span wraps to zero (`Rng.UniformIff`, `Rng.PanicsIffWide`,
  `Rng.UncheckedPanicsIffWhole`); the 128-bit span its comment relies on is cut to 64 bits.
* The TOML printer leaves U+007F raw, which TOML forbids (`Toml.RoundTrip`).
* A periodic snapshot that is still running when the final one completes can rename an older copy over
  it (`Snapshot.OverlapGoesBack`). Copy order alone decides: a rename takes the durable path back exactly
  when RAM changed between its copy and the copy the path holds (`Snapshot.GoesBackIff`,
  `Snapshot.NeverGoesBackIff`).
* A session sweep becomes visible when the session timeout is raised, or made negative, between the
  sweep and a request, and only then (`Sessions.SweepUnseenIff`, `Sessions.RaisedTimeoutShows`).
* With filtering on, packets into the tunnel are judged with the remote host as source, and no rule
  accepts established connections, so replies from hosts that no enabled client owns are dropped
  (`RunVerdicts.RepliesNeedAClient`).

## Model

| member | source | states |
|---|---|---|
| TargetParser.PrintParse | src/firewall.rs:648-678 | the parser inverts the natural printer for every address or CIDR, optional port and optional protocol |
| TargetParser.ValidatorMeansParser | src/api/clients.rs:897-941 | on whitespace-free entries the write-side check accepts exactly what the parser accepts with a port in 1..65535 and strict brackets |
| TargetParser.ParsedIsLiteral | src/firewall.rs:630-678 | whatever the parser lets through is a literal of the family its colons announce, with a 16-bit port and only tcp or udp |
| TargetParser.BareLiteralsParse | src/firewall.rs:648-678 | every bare address or CIDR literal is a target without port or protocol |
| ClientRules.AppendClientRules | src/firewall.rs:560-604 | the loops over a client's effective targets append exactly the client's compiled rules to the transaction |
| ClientRules.BuildClientTransaction | src/firewall.rs:246-268 | the transaction is one flush, every enabled client's rules in roster order, then the default deny |
| ClientRules.GenRulesMatch | src/firewall.rs:683-720 | a target's rules match a packet iff source, family and destination fit and, when a port is given, protocol and port do |
| ClientRules.ChainMeansAccessList | src/firewall.rs:238-268 | for every roster and packet the chain accepts iff an enabled client owns the source and an effective target covers the packet; otherwise it drops, and it never returns |
| ClientRules.TargetsByPrecedence | src/firewall.rs:566-572 | an enabled client's packet is accepted iff an entry of its firewall list grants it, of its allowed list only where the former column holds no text, of the default list only where neither does; a list that does not parse opens nothing |
| ClientRules.RosterIsUnion | src/firewall.rs:246-255 | a roster accepts a packet iff one of its enabled clients alone would |
| ClientRules.GrantsMeans | src/firewall.rs:574-604 | an entry grants a packet of its address family from the client's own address of that family to its address, and with a port to that port by its protocol or by either |
| ClientRules.OrderIrrelevant | src/firewall.rs:238-268 | the verdict does not depend on client order, repetition or disabled clients |
| ClientRules.MalformedTargetsNeverAbort | src/firewall.rs:586-603 | however malformed stored targets are, the transaction loads and installs exactly the compiled chain |
| DnsRules.TargetIpIff | src/firewall.rs:286-308 | a lockdown target is accepted iff, trimmed, it is an address literal, an IPv6 one with or without brackets; the reported text has the family and the number of the input |
| RebuildSpec.PlanByFields | src/firewall.rs:509-520 | the lockdown is off iff its switch is off or the trimmed target empty, installs for exactly the literal the target spells, and is refused otherwise |
| RebuildSpec.SanitizedNames | src/firewall.rs:621-627 | at most fifteen letters, digits, underscores and hyphens of an interface name are used, in order |
| ReachableTables.LockdownOnInstalls | src/firewall.rs:509-558 | rebuilding any table with the switch on and a usable target leaves chains that redirect to that address with the stored block setting, and in a tidy table the jump to them in forward |
| ReachableTables.LockdownOffRemoves | src/firewall.rs:510-512 | rebuilding a tidy table with the switch off or nothing stored leaves neither lockdown chain and no jump, and does not fail on that account |
| ReachableTables.BadTargetRefused | src/firewall.rs:513-520 | the switch on with a target that is no literal, or of the disabled family, is an error that changes nothing |
| DnsRules.DnatMeaning | src/firewall.rs:316-340 | the prerouting rules rewrite exactly DNS and DoT packets of the interface and the target's family, to target:53 |
| DnsRules.LockdownMeaning | src/firewall.rs:349-389 | the lockdown chain with its leak guard computes the stated verdict for either family and either block setting |
| DnsRules.DnsEscapesOnlyAheadOfTheJump | src/firewall.rs:509-558 | a DNS packet leaves unconfined iff it is of the other family and a rule ahead of the lockdown jump accepts it |
| DnsRules.LockdownFirstConfinesDns | src/firewall.rs:509-558 | with the lockdown jump first, every DNS and DoT packet of the interface is dropped or leaves addressed to target:53 |
| DnsRules.OnlyRedirectableDnsIsRewritten | src/firewall.rs:316-340 | every other packet keeps its destination |
| RebuildSpec.RunsKeepJumpsOnce | src/firewall.rs:149-219 | over any run of rebuilds in which every call succeeds, each owned jump stands in forward at most once |
| ReachableTables.RunsFollowLastSettings | src/firewall.rs:238-268 | after any run of rebuilds from the fresh table, the last with a usable target, the owned chains follow the fields of the last settings alone and those settings are in force |
| ReachableTables.RunsAreTidy | src/firewall.rs:238-268 | in every table such a run reaches, lines that look like an own jump are that jump and only it leads into the lockdown chain |
| ReachableTables.RebuiltIsCoherent | src/firewall.rs:238-268 | a successful rebuild of a tidy table leaves its settings in force, which is the hypothesis of the old-or-new result |
| RebuildSpec.RebuildSucceeds | src/firewall.rs:238-268 | with working nft calls a rebuild succeeds iff the lockdown is off or its target spells an address of an enabled family, and, for switching filtering off, the client chain exists |
| FirewallRebuild.Firewall.Apply | src/firewall.rs:108-135 | one nft batch changes the table wholly or not at all, even when it is refused |
| FirewallRebuild.Firewall.InitChain | src/firewall.rs:149-190 | chains and both jumps are ensured; every table seen in between is one of four, and the specified one when no call fails |
| FirewallRebuild.Firewall.RemoveFiltering | src/firewall.rs:192-219 | the chain is emptied before its jumps go; every table seen in between is one of three |
| FirewallRebuild.Firewall.DropJumps | src/firewall.rs:196-217 | deletion by listed handle removes exactly the lines that show a wanted jump, or nothing |
| FirewallRebuild.ShownHandles | src/firewall.rs:196-217 | the collected handles are exactly those of the lines that show a wanted jump |
| FirewallRebuild.Firewall.EnsureDnsChains | src/firewall.rs:395-421 | the DNS chains and the lockdown jump are ensured; intermediate tables are named |
| FirewallRebuild.Firewall.RemoveDnsLockdown | src/firewall.rs:427-443 | from any table and with any of its calls failing, every table on the way is the old one less the jump, the filter chain or the nat chain; all three go when no call fails |
| FirewallRebuild.Firewall.RebuildDnsLockdown | src/firewall.rs:509-558 | from any table and with any calls failing, every table on the way is named; a reported success with the lockdown on means its chains are filled behind its jump |
| FirewallRebuild.Firewall.FillClients | src/firewall.rs:256-268 | the client chain is replaced in one transaction or not at all |
| FirewallRebuild.Firewall.RebuildRules | src/firewall.rs:238-268 | under any failures, every table packets see keeps the promise: with the lockdown settings in force each packet is routed as under the old or as under the new ruleset, a tidy table stays tidy, a lockdown that stands first stays closed; while listings work, whatever transactions fail, no table on the way nor the result has a jump twice if the first had none twice; a reported success means the client chain is the compiled one, and puts the settings in force when the lockdown is on or no call failed (switching it off is best effort); unfaulted the result is the specified table |
| FirewallRebuild.Firewall.RebuildInForce | src/firewall.rs:238-268 | with the lockdown settings in force, the result and every table on the way route each packet as before or as after |
| FirewallRebuild.Firewall.RebuildAgain | src/firewall.rs:238-268 | after a rebuild that reported success (with the lockdown on, or unfaulted) its table has the settings in force, and every later table of a further rebuild with the same lockdown settings, for any roster, and its result route each packet as under that table or as under the one aimed at |
| FirewallRebuild.StillLockedConfines | src/firewall.rs:509-558 | while target or block setting of a first-standing lockdown change, every table on the way confines all DNS of the interface to the old or the new resolver |
| FirewallRebuild.RemovedOldOrNew | src/firewall.rs:192-219 | every table of switching filtering off routes each packet as before or as after |
| FirewallRebuild.Firewall.FilterClients | src/firewall.rs:249-268 | from any table and with any calls failing, every table on the way is named, and a reported success means the compiled chain stands behind both jumps |
| FirewallRebuild.ClientStepOldOrNew | src/firewall.rs:244-268 | every table of switching filtering on, off or refilling it routes each packet as before or as after the whole rebuild |
| Transitions.PaddedSame | src/firewall.rs:166-190 | jumps appended to empty chains, however many, change no packet's verdict |
| Transitions.DroppedSame | src/firewall.rs:192-219 | removing jumps to empty chains changes no packet's verdict |
| Transitions.FullExtensionsAgree | src/firewall.rs:166-190 | a failed listing, which appends jumps that are already there, leads to the same ruleset for every packet |
| Transitions.CoherentAcrossRosters | src/firewall.rs:238-268 | the hypothesis of the transactional theorem speaks of lockdown settings only, so it survives roster changes |
| ToggleOrder.LockdownBeforeFilteringConfines | src/firewall.rs:166-177 | lockdown switched on first, with any usable targets, confines all DNS to the last target's address after any number of rebuilds and filtering toggles |
| RunVerdicts.RunsHaveShape | src/firewall.rs:166-177 | after any run of rebuilds from the fresh table exactly these jumps stand in forward, in this order |
| RunVerdicts.ClientsAheadIff | src/firewall.rs:413-419 | the client jumps stand ahead of everything iff filtering has been on without a break since a rebuild that took effect with the lockdown off, and every later one kept both on |
| RunVerdicts.DnsLeaksIff | src/firewall.rs:413-419 | after any run that ends with the lockdown on and a target that spells an address, a DNS packet from the tunnel escapes from that address iff it is of the other family, the history put the client jumps first, and the access list allows it |
| RunVerdicts.LockdownAfterFilteringLeaks | src/firewall.rs:413-419 | the shortest such history: filtering first, then the lockdown; the same settings in one rebuild never leak |
| RunVerdicts.RunVerdict | src/firewall.rs:238-268 | the verdict of every forwarded packet after any run of rebuilds from the fresh table whose last one had the lockdown off or a usable target: a function of the last settings and, where lockdown and filtering are both on, of which the history put first |
| RunVerdicts.LockdownThenAccessList | src/firewall.rs:238-268 | after any run that put the lockdown first and ends with both on: for packets from the tunnel the lockdown verdict, then the access list, and nothing falls through |
| RunVerdicts.RepliesNeedAClient | src/firewall.rs:155-175 | after any run that ends with filtering on, a packet into the tunnel is dropped iff the access list does not allow it with the remote host as source, so replies from hosts no enabled client owns are dropped |
| AddressPool.NextAddress | src/db.rs:2656-2686 | the search loop computes the first host that is neither reserved nor used |
| AddressPool.FirstFreeIsSmallest | src/db.rs:2656-2686 | the result is the smallest such host, and there is none iff no such host exists |
| AddressPool.RoomySucceeds | src/db.rs:2656-2686 | pigeonhole: more hosts than reserved and used addresses always leave one |
| AddressPool.ChooseAddresses | src/db.rs:2285-2320 | both addresses are chosen against the addresses in the table |
| AddressPool.ClientsTable.CreateClientAllocIp | src/db.rs:2285-2320 | a create appends exactly the allocated row, is never refused by UNIQUE, and changes nothing on error |
| AddressPool.ClientsTable.Insert | src/db.rs:2221-2265 | an insert is refused exactly on a clash in a UNIQUE column |
| AddressPool.ClientsTable.DeleteClient | src/db.rs:2350-2357 | exactly the row with the id goes, one row at most, an unknown id is an error that changes nothing, and the table stays valid |
| AddressPool.CreateGivesSmallest | src/db.rs:2285-2320 | a create gives the smallest IPv4 host other than network + 1 and the smallest IPv6 host other than network and network + 1 (in 32 and 128 bits) that no client holds, and fails iff a CIDR is unreadable or there is none |
| AddressPool.RoomyPoolAllocates | src/db.rs:2285-2320 | clients + 2 IPv4 hosts and clients + 3 IPv6 hosts always suffice |
| AddressPool.RunsKeepAddressesDistinct | src/db.rs:2285-2357 | over every run of creates, edits and deletes different clients have different ids, IPv4 and IPv6 addresses, and ids ascend |
| AddressPool.EditIff | src/db.rs:2339-2348 | an edit gives a client exactly the new addresses unless another client holds one of them, and changes no one else |
| AddressPool.DeleteUndoesCreate | src/db.rs:2350-2357 | deleting a fresh client restores the rows, and the next create hands out the same addresses |
| Renumber.NextIsIth | src/db.rs:2656-2686 | with the first i free hosts taken the search gives the next one |
| Renumber.AllocatableByRank | src/db.rs:2656-2686 | the i-th address handed out is the host that is not reserved and has i such hosts below it |
| Renumber.Registry.MoveClient | src/api/admin.rs:745-763 | one iteration gives client i the i-th free host of each pool, or is refused and changes nothing |
| Renumber.Registry.ChangeCidr | src/api/admin.rs:741-763 | a prefix of the clients is moved, client i to the host of each pool that has i hosts below it, not counting network + 1 (and network, for IPv6); the rest stay, and it stops at the first client for which a pool has no such host or a later client holds it |
| Renumber.RefusedExactly | src/api/admin.rs:762 | an UPDATE violates UNIQUE iff the client's new address is held by a client still to be moved |
| Renumber.StepClearIff | src/api/admin.rs:745-763 | a client can be moved iff each pool has an i-th host besides the reserved ones and no later client holds it |
| Renumber.GreedyIsBelow | src/api/admin.rs:741-763 | new[i] <= old[i] when the old addresses are ascending members of the new pool |
| Renumber.ClearByColumn | src/api/admin.rs:741-763 | renumbering goes through iff each address column does on its own |
| Renumber.FriendlyRostersAreClear | src/api/admin.rs:741-763 | no intermediate UPDATE violates UNIQUE when each column's old addresses ascend in the new pool or miss it |
| Renumber.RenumberTwice | src/api/admin.rs:741-763 | renumbering is idempotent and its repetition always goes through |
| Renumber.SwappedPairCollides | src/api/admin.rs:741-763 | two clients in the wrong order make the first UPDATE fail |
| SlidingWindow.PruneWindow | src/api/session.rs:176 | retain keeps exactly the attempts inside the horizon, in order |
| SlidingWindow.LiveAreRecent | src/api/session.rs:176 | as many attempts survive as lie less than the horizon back |
| SlidingWindow.LiveLater | src/api/session.rs:157-168 | pruning early never changes what a later look sees |
| SlidingWindow.RecordKeepsLimit | src/api/session.rs:176-183 | recording only below the limit keeps every interval of the horizon's length within it |
| RateLimiter.Limiter.Attempt | src/api/session.rs:145-205 | the locked section computes the specified new map and outcome |
| RateLimiter.SpelledApart | src/api/session.rs:47-50 | username keys and address keys never collide |
| RateLimiter.CountedTogether | src/api/session.rs:43-50 | two usernames, or two addresses, share a key iff they agree up to the 64th character; a username never shares one with an address |
| RateLimiter.MapStaysBounded | src/api/session.rs:157-168 | over every run the map holds at most 16384 + 2 keys and no empty window |
| RateLimiter.SweepChangesNoDecision | src/api/session.rs:157-168 | under a non-decreasing clock every decision but the fail-closed one is that of a reference that never prunes or sweeps |
| RateLimiter.FloodedIffUnderFlood | src/api/session.rs:162-168 | the fail-closed refusal comes iff more than 16384 keys have an attempt in the last minute |
| RateLimiter.AdmissionsAreRecorded | src/api/session.rs:172-205 | every admitted attempt is on the books under its username and its address |
| RateLimiter.BookIsRecorded | src/api/session.rs:172-205 | the reference's books are the attempts that passed the username limit, and for addresses those admitted |
| RateLimiter.DecisionByCounts | src/api/session.rs:145-205 | on every run and attempt: admitted iff there is no flood and fewer than 10 recorded attempts of the username and fewer than 50 of the address lie in the last 60 seconds; the refusals likewise |
| RateLimiter.NoWindowAdmitsMore | src/api/session.rs:145-205 | over any run no username admits more than 10 and no address more than 50 attempts in any 60 seconds |
| Totp.PaddedIsInjective | src/api/session.rs:786 | zero-padded printing of truncated values loses nothing below 10^width |
| Totp.TruncatedBytes | src/api/session.rs:779-786 | the truncated value's bytes, most significant first, are those at the offset of the last byte's low nibble, the first without its top bit |
| Totp.HotpNumeral | src/api/session.rs:770-786 | a code is six digits that read, first digit most significant, as the truncated value modulo a million |
| Totp.RfcExample | src/api/session.rs:770-786 | the digest of section 5.4 of RFC 4226 has the value 0x50ef7f19 and the code 872921 |
| Totp.HotpCollides | src/api/session.rs:770-786 | two counters share a code iff their truncated values agree modulo a million |
| Totp.CtEq | src/api/session.rs:791-800 | accumulating xor differences without early exit decides equality |
| Totp.VerifyTotpSecretStep | src/api/session.rs:741-764 | the loop returns the first matching candidate step |
| Totp.MatchedMeans | src/api/session.rs:741-764 | a code is accepted iff it is the code of a step at most one from the clock's, and the earliest such step is consumed |
| Totp.User.CheckTotpRateLimit | src/api/session.rs:625-646 | five live guesses refuse the next one; a refusal records nothing |
| Totp.User.SetTotpLastStep | src/db.rs:2458-2465 | the watermark only advances |
| Totp.User.Login | src/api/session.rs:231-264 | a code is asked for iff a verified, non-empty key is stored, refused unseen iff five guesses lie in the last 300 seconds, and otherwise accepted only as the code of a step within one of the clock's; an uninterrupted login is one lookup, watermark read and write, and on success the watermark rises to the consumed step |
| Totp.User.Create | src/api/session.rs:557-586 | an uninterrupted enrolment is a lookup, the check, the verified flag and the watermark write, in that order |
| Totp.LaterReadsTakeLaterSteps | src/api/session.rs:245-252 | under any interleaving, a login that reads after another use was written consumes a strictly later step |
| Totp.ReadPassesIff | src/api/session.rs:239-251 | after any run, under any interleaving, a login passes its watermark read iff its code offers a positive step above every step written so far |
| Totp.UpdateChangesIff | src/db.rs:2458-2465 | a login writes a step above all written before iff the conditional UPDATE changes the row |
| Totp.WriteIsFreshIff | src/api/session.rs:245-252 | a login writes a new step, also above those of enrolments checked before it read, iff moreover no enrolment still to write had checked such a step |
| Totp.AscendingIff | src/api/session.rs:245-252 | over a whole run, under any interleaving, logins write ascending steps iff every login's UPDATE changed the row |
| Totp.SingleUseIff | src/api/session.rs:245-252 | single use of a whole run, under any interleaving, with an enrolment's step taken at its check, holds iff every login's UPDATE changed the row and no login wrote ahead of an enrolment that had checked a step at or above its own before it read |
| Totp.StepsStrictlyIncrease | src/api/session.rs:245-252 | without interleaving accepted steps strictly increase and exceed every step consumed before, at login or enrolment |
| Totp.OneAtATimeIsSingleUse | src/api/session.rs:245-252 | runs without interleaving have single use and meet both conditions |
| Totp.LoginsFit | src/api/session.rs:231-264 | in every run in which every login's UPDATE changed the row, at most t1/30 - t0/30 + 3 logins succeed between t0 and t1 |
| Totp.OverlappingLoginsReplay | src/api/session.rs:245-252 | after any run, two logins with one code that both read before either writes consume the same step |
| Totp.OverlapIsReachable | src/api/session.rs:231-264 | a concrete run after which two logins can do so |
| Totp.EnrolmentCodeReplays | src/api/session.rs:576-581 | a login that reads after enrolment wrote the verified flag and before it writes the watermark accepts the enrolment code again |
| Totp.LoginOvertakesEnrolment | src/api/session.rs:576-581 | so does one that also writes before the enrolment, although its UPDATE changes the row |
| Totp.GuessesAreBounded | src/api/session.rs:624-646 | no account has more than five codes checked in any five minutes, logins and enrolments together |
| Totp.GuessPassesIff | src/api/session.rs:625-646 | a guess is looked at iff fewer than five lie in the 300 seconds before it |
| Totp.OfferedIff | src/api/session.rs:231-245 | after any run a login with a code is offered exactly the earliest step within one of the clock's that has the code, iff the row it looked up has a verified, non-empty key and fewer than five guesses lie in the last 300 seconds |
| Totp.VerifiedIff | src/api/session.rs:542-600 | the stored key counts as verified iff an enrolment set the flag since a key was last stored or deleted |
| Totp.KeyIsLastStored | src/api/session.rs:542-600 | the key is the one stored last, and a deletion stores an empty one |
| Base32.Encode | src/api/session.rs:653-672 | the loops over the truncating 32-bit buffer write exactly the unpadded base32 of the bytes |
| Base32.Decode | src/api/session.rs:674-698 | the loop reads exactly the whole bytes of the valid characters' bits, or fails on the first foreign character |
| Base32.PushBits | src/api/session.rs:658 | shifting in the 32-bit buffer loses no live bit |
| Base32.RoundTrip | src/api/session.rs:653-698 | decoding an encoding gives the bytes back, for every byte string |
| Base32.EncodedLength | src/api/session.rs:653-672 | the encoded length is ceil(8n/5) |
| Base32.AlphabetAt | src/api/session.rs:654 | quintet q is written as the q-th character of the RFC 4648 alphabet |
| Base32.EncodedBits | src/api/session.rs:653-672 | bit by bit, the characters' five-bit values are the bytes' bits in order, most significant first, with zeros after the last |
| Base32.DecodesIff | src/api/session.rs:678-687 | a string decodes iff it holds only letters, the digits 2 to 7, padding and whitespace |
| Base32.SpellingIsIgnored | src/api/session.rs:678-687 | strings that differ in case, '=' and whitespace decode alike |
| Base32.InsertionIsIgnored | src/api/session.rs:678-680 | '=' or whitespace put anywhere into an encoding does not change what it decodes to |
| Base32.ReencodesIff | src/api/session.rs:653-698 | re-encoding a decoded string restores it, up to spelling, iff fewer than five bits were dropped and all were zero |
| Sessions.AppState.StartSession | src/api/session.rs:280-288 | a new token is honoured for as long as the timeout in force at each request allows, and no other token is touched |
| Sessions.AppState.DeleteSession | src/api/session.rs:349-365 | after logging out the token is never honoured, and no other token is touched |
| Sessions.AppState.PruneExpiredSessions | src/api/mod.rs:74-78 | the sweep keeps exactly the sessions that are not expired |
| Sessions.AppState.RequireAuth | src/api/mod.rs:398-425 | the checks in their order compute the specified outcome |
| Sessions.GrantedIff | src/api/mod.rs:40-48 | a token is honoured until its session is older than the timeout, a negative timeout counting as that many seconds short of 2^64; then the user decides |
| Sessions.PruningIsUnobservable | src/api/mod.rs:40-78 | runs that differ only in their sweeps answer every request alike, for a forward clock and a non-increasing effective timeout |
| Sessions.SweepUnseenIff | src/api/mod.rs:40-78 | a sweep under timeout a shows in no later request under timeout b, for every store and forward clock, iff b is no larger than a as an unsigned number |
| Sessions.RaisedTimeoutShows | src/api/mod.rs:40-48 | every effective raise, to a larger or a negative timeout, has a run in which a sweep shows |
| Sessions.SweepLeavesOnlyLive | src/api/mod.rs:74-78 | right after a sweep the store holds exactly the sessions a request would honour |
| SupervisorSlot.Supervisor.WatchdogCount | src/mdnsvpn/supervisor.rs:371-401 | an exit is counted from the last healthy one, and the restart delay or the giving up follows from the count |
| SupervisorSlot.Supervisor.WatchdogExit | src/mdnsvpn/supervisor.rs:343-401 | a whole watchdog run: an exit that was asked for or of an unwanted child never leads to a restart, any other does, after 1 to 32 s, iff the counter has not passed ten |
| SupervisorSlot.Supervisor.EnsureRunning | src/mdnsvpn/supervisor.rs:94-146 | a whole reconcile: the old child is handed out to be killed whatever becomes of the new one, and the counter survives every reconcile that is not a successful manual one |
| SupervisorSlot.BackoffDoublesThenStays | src/proc.rs:84-86 | the delay doubles from 1 s to 32 s and stays there; the cap of 60 never decides |
| SupervisorSlot.CounterCountsFromLastHealthy | src/mdnsvpn/supervisor.rs:371-383 | the counter is the number of exits from the last healthy one on, inclusive |
| SupervisorSlot.CounterCountsAllUnhealthy | src/mdnsvpn/supervisor.rs:371-383 | with no healthy exit the counter is the number of exits |
| SupervisorSlot.CrashLoopWaits191Seconds | src/proc.rs:77-86 | a crash loop without a healthy run waits at most 191 s in all, and exactly that over its ten restarts |
| MdnsSupervisor.NoOrphan | src/mdnsvpn/supervisor.rs:94-146 | when watchdog sections run before the next registration, every live child outside a stop or spawn is the recorded one, so at most one is alive |
| MdnsSupervisor.OwnedStepIff | src/mdnsvpn/supervisor.rs:346 | an event keeps every live child owned iff it is not a watchdog section that takes another, live child's record |
| MdnsSupervisor.NoOrphanIff | src/mdnsvpn/supervisor.rs:334-351 | over every run, however watchdogs are scheduled, live children are owned throughout iff no such take occurs |
| MdnsSupervisor.NoForeignTakeNoOrphan | src/mdnsvpn/supervisor.rs:334-351 | and then at most one child is alive outside a stop or spawn: the recorded one |
| MdnsSupervisor.ReconcileBringsUp | src/mdnsvpn/supervisor.rs:94-146 | from every reachable idle state a reconcile that wants the child ends with the old one dead and a new one recorded, alive and watched, and clears the counter iff it is manual |
| MdnsSupervisor.ReconcileTakesDown | src/mdnsvpn/supervisor.rs:97-100 | one that does not want it ends with nothing recorded and the old child dead |
| MdnsSupervisor.LateWatchdogOrphans | src/mdnsvpn/supervisor.rs:334-351 | a late watchdog section leads to two live children |
| MdnsSupervisor.CounterRefinesHistory | src/mdnsvpn/supervisor.rs:371-401 | over every run the counter is that of the exit history since it was cleared |
| MdnsSupervisor.StopIsMissedIff | src/mdnsvpn/supervisor.rs:295-305 | over every run, a stopped child's exit is mistaken for a crash iff its watchdog looks before that stop has raised the flag |
| MdnsSupervisor.LateFlagRestarts | src/mdnsvpn/supervisor.rs:295-305 | a run in which it does, and the watchdog later restarts the child's successor |
| MdnsSupervisor.RestartsStopAfterTen | src/mdnsvpn/supervisor.rs:386-401 | in every run a wanted child's counted exit is followed by a restart iff the exits since the last healthy one number at most ten |
| DnsSupervisor.CrashLoopsEnd | src/dns/supervisor.rs:584-621 | with no manual reconcile the passes number at most 10 * (2 + healthy exits), and each child is spawned at most once a pass |
| DnsSupervisor.AtMostTwentyRespawns | src/dns/supervisor.rs:139-156 | with no healthy exit at most twenty passes run and each child is respawned at most twenty times |
| DnsSupervisor.ExitSchedulesIff | src/dns/supervisor.rs:563-621 | a counted exit schedules a restart iff the child is wanted and its exit was healthy or fewer than ten were counted; the other child is untouched |
| DnsSupervisor.DnscryptPartBringsUp | src/dns/supervisor.rs:207-248 | a running dnscrypt-proxy is kept, one that is gone is started again and recorded |
| DnsSupervisor.TorPartsBringUp | src/dns/supervisor.rs:287-355 | the old tor is being stopped and a new one is started and recorded |
| DnsSupervisor.PassBringsUp | src/dns/supervisor.rs:139-156 | a pass that goes through ends with both children up |
| DnsSupervisor.DeadChildComesBack | src/dns/supervisor.rs:584-621 | a wanted child that exits below the limit is up again under a new pid after the pass its watchdog starts |
| DnsSupervisor.SwitchedOffGoesDown | src/dns/supervisor.rs:207-211 | a child found switched off is taken off the record and stopped with nothing started in its place, and a failing part leaves the record as it was |
| Rng.U64Below | src/rng.rs:40-50 | the loop ends at the first accepted word with its remainder, and starves only on a stream without one |
| Rng.RejectIsRemainder | src/rng.rs:42-44 | the rejected zone is 2^64 mod bound and the accepted one a whole number of bounds |
| Rng.FewerThanHalfRejected | src/rng.rs:42-44 | fewer than half of all words are rejected |
| Rng.Uniform | src/rng.rs:40-50 | every result comes from exactly floor(2^64 / bound) accepted words |
| Rng.RangeInclI64 | src/rng.rs:55-60 | the signed arithmetic gives lo plus the draw, or panics where stated |
| Rng.RangeExclI64 | src/rng.rs:64-68 | the half-open range is the closed one below hi |
| Rng.DrawsOf | src/rng.rs:55-60 | how many words make the call return v, for every build, range and value: floor(2^64 / span), or none in a checked build when v lies 2^63 or more above lo |
| Rng.RangeIsUniform | src/rng.rs:55-60 | where the call cannot panic every value of the range comes from equally many words |
| Rng.UniformIff | src/rng.rs:55-60 | below the whole i64 range the call is uniform iff overflow is unchecked or the range spans at most 2^63 values |
| Rng.PanicsIffWide | src/rng.rs:55-60 | with overflow checks some stream panics iff the range spans more than 2^63 values |
| Rng.UncheckedPanicsIffWhole | src/rng.rs:55-60 | without overflow checks only the whole i64 range panics |
| Rng.StarvesIffAllRejected | src/rng.rs:45-50 | a call waits for ever iff every word it is given is rejected |
| Toml.TomlString | src/mdnsvpn/config.rs:259-280 | the loop writes the escaped, quoted string |
| Toml.TomlStringArray | src/mdnsvpn/config.rs:282-292 | the loop writes the bracketed, comma-separated list |
| Toml.RoundTrip | src/mdnsvpn/config.rs:259-292 | a TOML reader reads back exactly the items and stops at the closing bracket, whatever follows, iff no item contains U+007F |
| Toml.PrintedIsInjective | src/mdnsvpn/config.rs:282-292 | different lists never print alike |
| Toml.PrintedIsOneLine | src/mdnsvpn/config.rs:259-292 | the output has no line break or other control character |
| Snapshot.SnapshotThenRestart | src/db.rs:1848-1889 | the next start adopts the state at the time of the call when the call went through, and what it would have adopted anyway when it did not |
| Snapshot.Host.SnapshotTo | src/db.rs:1939-2004 | an uninterrupted call ends in the state of its event sequence and succeeds iff its directory is new and no step fails |
| Snapshot.CallMeans | src/db.rs:1939-2014 | a call leaves the durable path untouched or holding the current RAM state, and leaves no directory behind when cleanup works |
| Snapshot.DurableIsNeverTorn | src/db.rs:1939-2014 | stopped after any step, over any interleaving of snapshots, writes and crashes, the durable path holds its initial content or one complete backup of a state RAM really had |
| Snapshot.EachStepKeepsOrPromotes | src/db.rs:1977-2004 | every single step leaves the durable path as it was or puts one whole backup there by a rename |
| Snapshot.RestartRestoresLastPromoted | src/db.rs:1902-1924 | a readable restart brings back exactly the most recently promoted state |
| Snapshot.CopyOrderIsAge | src/db.rs:1984-2002 | under any interleaving one promoted state is older than another iff its copy was made first and RAM changed between the copies |
| Snapshot.LaterBackupsAreNewer | src/db.rs:1984-2002 | however snapshots overlap, one copied after another's promotion is no older |
| Snapshot.GoesBackIff | src/db.rs:2000-2002 | a rename takes the durable path back iff RAM changed between its copy and the copy the path holds |
| Snapshot.NeverGoesBackIff | src/main.rs:140-175 | over a whole run promoted states never go back iff renames happen in copy order |
| Snapshot.PromotedNeverGoesBack | src/main.rs:140-175 | with renames in copy order the durable path holds the newest state ever promoted |
| Snapshot.OneAtATimeIsInCopyOrder | src/main.rs:155-165 | snapshots that do not overlap are renamed in copy order |
| Snapshot.OverlapGoesBack | src/main.rs:276-285 | an overlapping periodic snapshot can replace the final one by an older state |

## Left out

- Rules are values, not text: the spelling of nft commands, comments and their sanitising is not
  modelled, and a listing line shows a jump when its conditions and target agree.
- Handles in a listing are positions in it; a listing and the deletion that uses it are not
  interleaved with other writers.
- Address literals: the standard and ipnet parsers are parameters with stated facts (alphabets, two
  colons in IPv6 texts, canonical spelling keeps the value), which `Nft.SaneIsPossible` shows to be
  consistent; `hosts()` is an ascending list, addresses are numbers, and addr + 1 wraps as in release
  builds.
- The proxy-lockdown chain, legacy iptables cleanup and hooks: plumbing around the same primitives. The
  interface name is a key that updates cannot touch (`src/db.rs:2130-2138`), so runs keep one name.
- Database reads succeed and return one consistent row; row locks and the lock that serialises
  allocations are the atomicity of the methods.
- Spawning, signals, pipes and log pumps: a child is alive or dead, a kill is effective, reconciles are
  serialised, and a reconcile's running check is part of its stop section.
- The crash counter is unbounded; the source's is 32 bits wide and never passes eleven.
- HMAC-SHA1 is an arbitrary function to 20 bytes, the word stream and the clock are inputs, Argon2,
  password checks and user lookups around the login sections are not modelled.
- Shifts and ors on `u32` are arithmetic modulo 2^32 on free low bits; HOTP truncation likewise.
- TOTP: a login's row lookup, its code check with the watermark read, and its write are three events; an
  enrolment's lookup, code check, flag write and watermark write are four. The limiter, the match and the
  read within one event are not interleaved with others.
- Sessions: require_auth's poisoned-lock and database errors are not modelled; users are identifiers.
- TOML: the reader covers arrays on one line without comments, which is all the printer writes.
- Snapshot: file contents are abstract states and a file is whole or torn; SQLite's page copy, gzip,
  permissions beyond their success and the age of a restored schema are not modelled.
- The proxy, xray and mtproxy supervisors are not part of this model.
- HTTP routing, JSON shapes, static assets, whitelists, single-field range checks and column
  migrations: they would only add easy members.
