# WeBridge server core

WeBridge resolves links of file-transfer services and streams the files through itself. Around that it
keeps accounts, groups and sessions, throttles logins, writes an audit trail and limits concurrent
downloads. This project models those parts and proves what they guarantee over whole runs.

Parts that change state in place are classes (`Bruteforce` with its heap of trackers, `Service` with the
backing arrays of the group lists, `Store` and `Log`, `Handler`, `Registry`, the page's `Client`). Each of
their methods is proved to have exactly the effect of a function on values, and the guarantees are lemmas
about runs of those functions:

| modules | part |
|---|---|
| `Backoff`, `Throttle`, `Bruteforce`, `ThrottleHistory`, `ThrottleInterleaved`, `ThrottleWaiting`, `ThrottleSettings` | login throttling: settings, arithmetic, step functions, the heap of trackers, sequential timed runs, interleaved runs and edited settings, failures per lock |
| `Permissions`, `Accounts`, `AccountRuns`, `AccountEffects`, `Logins`, `Service` | permissions, step functions, guarantees over runs, effects of each request, atomic and interleaved logins, the mutable service |
| `LoginFlow`, `LoginLog`, `LoginEndpoint` | the login endpoint with throttle, accounts and audit log together, what the log tells about the throttle, and the handlers |
| `AuditPipeline`, `AuditQuery`, `AuditLog`, `AuditPaging` | write path, query builder, in-memory window and store objects, the page's paging |
| `Downloads`, `DownloadHandler` | the slot protocol over all interleavings, and the handler as a run of it |
| `Registry`, `MailDomains`, `Text` | provider routing, mail-domain allowlist, string operations |
| `Common`, `Ordered` | Option, Result, sequences, times in order |

Time is an integer number of nanoseconds read by the caller of each operation, and never runs backwards in
a run; the zero time is 0. Everything a mutex protects is one step. The answers of the directory, the mail
server and the providers, tokens and salts, and whether a database transaction commits, are inputs.

## What turned out to hold only under a condition

- A window of `2*WindowMinutes*BackoffMaxMinutes` minutes above 153722867 overflows a duration. Exactly then
  lazy expiry stops meaning what the history says (`RefinementNeedsFit`); a window that wraps to a negative
  duration lets in a key that was locked at the same instant (`OverflowingWindowUnlocks`).
- Edits of the throttle settings end a live lock in some run exactly when the window in force is shorter
  than a cap that was in force before (`EditsSpareLocksExactly`, `CarelessEditUnlocks`).
- A throttle reset writes no audit event, and any signed-in client can post an event with any action under
  the address of its connection. What the server itself logged since a key's last reset always tells the
  failures that count (`GenuineLogTellsFailures`). The log as it is does so for usernames
  (`LogTellsUsernames`), for addresses nobody posted from (`RecentLogTellsFailures`), and in general exactly
  when what it wrongly shows is what it wrongly hides (`LogTellsFailuresExactly`, `ResetIsNotLogged`,
  `PostShowsLocked`, `PostHidesFailure`).
- Concurrent logins need not wait as sequential ones do: all that pass Check before the first lock may fail at
  one instant (`AllMayFailAtOnce`). With at most p pending on a key, p failures fit into each lock
  (`FailuresPerLock`).
- The server keeps an administrator except when the last one logs in through a directory other than the one
  the account came from: provisioning replaces that account by a member (`StepKeepsAdmin`,
  `LoginLosesFloorExactly`, `DirectoryLoginDemotesLastAdmin`).
- A login in flight while its user is deleted leaves a session that names nobody (`EventKeepsNamed`,
  `LateSessionDangles`); it passes no permission guard (`DeletedUserIsShutOut`).
- Closing the audit store is sure to keep every accepted event only when nothing is on its way: which turn
  the flusher takes last decides whether its batch is lost (`CloseKeepsAllExactly`, `CloseMayKeepAll`,
  `CloseLosesOne`). If the ticker never comes first, multiples of 500 are kept
  (`TicklessCloseKeepsAllExactly`).
- A reload of the audit page while a further page is in flight spoils the list unless that page fails or
  happens to be what comes next (`ReloadSpoilsExactly`): with the same filter unless it is the second page
  (`SameFilterSpoilsExactly`, `ReloadInFlightSkips`), with another filter even then (`FilterChangeSpoils`).
  Scrolling under edited, unsubmitted filter fields spoils it likewise (`EditedFieldsKeepExactly`).
- A lookup depends on the map's iteration order exactly when its host is not registered and two providers have
  hosts above it (`OneAnswerExactly`). If any text can be a host, some lookup does exactly when a host of one
  provider, free of colons and upper case, lies below a host of another (`RoutingIndependentExactly`).
- A blank allowlist entry admits an address that ends in its at sign (`BlankEntryAllowsEmptyDomain`).

## Where the code and its comments differ

The model follows the code.

- `internal/audit/store.go:139` says Close waits for buffered events to flush. The flusher returns on the
  closed channel without draining the batch it has collected.
- `internal/auth/auth.go:128-129` says the LDAP fallback applies to unknown users only. `Login` also falls
  back for accounts whose source is ldap or imap.
- `internal/auth/auth.go:30` names "local" and "ldap" as sources. Created users carry none, and imap exists.
- `Log.Query` without a store compares the user for equality and looks at neither offset nor time bounds;
  with a store the user is matched with LIKE and all filters apply.
- `auditLoading` in `internal/handlers/app.js` guards `loadMoreAudit` only, not `loadAuditData`.

## Model

| member | source | states |
|---|---|---|
| Backoff.LockoutBounds | internal/auth/bruteforce.go:203-210 | A lockout is at least one minute and at most the cap, at every step |
| Backoff.LockoutDoubles | internal/auth/bruteforce.go:203-210 | Each further step doubles the lockout until the cap stops it |
| Backoff.LockoutMonotone | internal/auth/bruteforce.go:203-210 | A later step never locks for less |
| Backoff.TotalLockoutUncapped | internal/auth/bruteforce.go:203-210 | Until the cap is reached the first k lockouts add up to base*(2^k-1) minutes |
| Backoff.WindowExact | internal/auth/bruteforce.go:194-196 | The int64 window duration equals the intended number of minutes if and only if 2*window*max is at most 153722867 |
| Backoff.LockoutExact | internal/auth/bruteforce.go:93-99 | With such settings no lockout overflows either, and every lockout is shorter than the window |
| Backoff.WindowWraps | internal/auth/bruteforce.go:195 | One minute more and the window duration is negative |
| Bruteforce.Tracker.Clean | internal/auth/bruteforce.go:194-201 | A tracker idle past the window forgets failures, step and lock; any other is left alone |
| Bruteforce.Tracker.Fail | internal/auth/bruteforce.go:85-101 | One failure counted, last-seen moved, and from the threshold on the lock set with the current step and the step advanced |
| Bruteforce.Table.GetOrCreate | internal/auth/bruteforce.go:185-192 | Returns the tracker of the key, allocating a fresh one owned by that key if there is none; no other entry changes |
| Bruteforce.Table.Collect | internal/auth/bruteforce.go:131-138 | Whatever the iteration order, every tracker is cleaned and the list has exactly one entry for each that still counts failures |
| Bruteforce.Bruteforce.constructor | internal/auth/bruteforce.go:28-46 | Empty tables; 5 attempts, 15 minutes, base 1 and cap 64 in place of settings that are not positive |
| Bruteforce.Bruteforce.Check | internal/auth/bruteforce.go:50-73 | The address decides first and a locked address leaves the username untouched; otherwise the username decides; only the two trackers looked at are cleaned |
| Bruteforce.Bruteforce.RecordFailure | internal/auth/bruteforce.go:76-102 | One failure more at exactly the two keys; every other tracker is unchanged, so keys never share a tracker |
| Bruteforce.Bruteforce.Reset | internal/auth/bruteforce.go:105-110 | The two entries are gone and nothing else changes |
| Bruteforce.Bruteforce.GetState | internal/auth/bruteforce.go:125-143 | Reports the settings and exactly the keys that still count failures, and changes the trackers by cleaning only |
| Bruteforce.Bruteforce.UpdateConfig | internal/auth/bruteforce.go:146-161 | Field by field a positive setting is in force afterwards and any other leaves the old one; no tracker changes |
| Bruteforce.Bruteforce.ResetByIP | internal/auth/bruteforce.go:164-168 | Forgets one address and nothing else |
| Bruteforce.Bruteforce.ResetByUsername | internal/auth/bruteforce.go:171-175 | Forgets one username and nothing else |
| Bruteforce.Bruteforce.ResetAll | internal/auth/bruteforce.go:178-183 | Forgets every key and keeps the settings |
| Bruteforce.Bruteforce.Attempt | internal/auth/auth.go:194-253 | Check, then Reset or RecordFailure, as one step on the real trackers |
| Bruteforce.ReportsExactly | internal/auth/bruteforce.go:130-142 | The lists of GetState name exactly the keys that count failures, once each, with their count and lock |
| ThrottleSettings.EditFields | internal/auth/bruteforce.go:146-161 | An edit merges field by field, and start-up settings fall back to 5, 15, 1 and 64 |
| ThrottleSettings.ThresholdLocks | internal/auth/bruteforce.go:76-102 | A key without failures is locked by the MaxAttempts-th failure recorded against it and not before, for the smaller of base and cap |
| ThrottleSettings.EditSetsThreshold | internal/auth/bruteforce.go:146-161 | After an edit that sets the threshold to n that is the n-th failure, with the edited base and cap |
| ThrottleSettings.DefaultThreshold | internal/auth/bruteforce.go:28-46 | A server without settings locks with the fifth failure for a minute |
| ThrottleHistory.ChainIsLongest | internal/auth/bruteforce.go:194-201 | The number of counting failures is the largest m whose last m failures have gaps of at most the window |
| ThrottleHistory.CheckDecides | internal/auth/bruteforce.go:50-73 | On trackers that show their histories, Check answers what the two histories say |
| ThrottleHistory.RunShows | internal/auth/bruteforce.go:50-102 | In every reachable state of a timed run every tracker shows its key's history, or was cleaned after the window |
| ThrottleHistory.LazyExpiryRefinesHistory | internal/auth/bruteforce.go:50-102 | Seen through clean, a tracker has as many failures as the trailing chain of recorded failures, locked until the last failure plus min(base*2^(n-MaxAttempts), max) minutes |
| ThrottleHistory.OverflowForgets | internal/auth/bruteforce.go:194-201 | With any window that overflows, a failure that should still count is forgotten, at a time a duration can measure |
| ThrottleHistory.RefinementNeedsFit | internal/auth/bruteforce.go:194-210 | Lazy expiry means what the history says, in every run and at every time a duration can measure, if and only if the window does not overflow |
| ThrottleHistory.VerdictRefinesHistory | internal/auth/bruteforce.go:50-73 | In every run a login is turned away exactly when one of its two histories has it locked |
| ThrottleHistory.StateShowsCounting | internal/auth/bruteforce.go:125-143 | In every run reading the state shows for each key the failures that still count at that time, and their lock |
| ThrottleHistory.RecordedAreFailures | internal/auth/bruteforce.go:76-102 | The failures the server records, those of logins that Check let through, are the ones of the history-only specification |
| ThrottleHistory.FailuresAreSpaced | internal/auth/bruteforce.go:76-102 | No failure is recorded while the failures before it keep the key locked |
| ThrottleHistory.SpacedChainWaits | internal/auth/bruteforce.go:76-102 | Along one chain every lockout is waited out in full |
| ThrottleHistory.GuaranteedWaiting | internal/auth/bruteforce.go:76-102 | The (MaxAttempts+k)-th recorded failure of a chain comes no earlier than the first lock plus the first k lockouts, base*(2^k-1) minutes while uncapped |
| ThrottleHistory.OverflowingWindowUnlocks | internal/auth/bruteforce.go:194-201 | A concrete overflow: a key just locked is let in at the same instant |
| ThrottleInterleaved.RunSound | internal/auth/bruteforce.go:76-102 | In every interleaving under fixed settings a tracker is locked from its last failure for the lockout of its last step, or is below the threshold |
| ThrottleInterleaved.LockedKeyHolds | internal/auth/bruteforce.go:50-102 | From lock to expiry, over every interleaving: the lock never moves earlier, no new login passes Check, and failures counted plus logins pending stay constant |
| ThrottleInterleaved.LockedKeyHoldsInEveryRun | internal/auth/bruteforce.go:50-102 | The same after any run from the start of the server |
| ThrottleInterleaved.RunBounded | internal/auth/bruteforce.go:146-161 | In every run whose settings never overflow, no lock reaches further beyond its last failure than the largest cap in force so far, whatever was edited |
| ThrottleInterleaved.CleaningKeepsLocks | internal/auth/bruteforce.go:194-201 | While the window in force is at least the largest cap so far, cleaning leaves live locks alone in every reachable state, and Check answers the same with or without cleaning |
| ThrottleInterleaved.SomeLockOutlasts | internal/auth/bruteforce.go:194-201 | Otherwise a run of concurrent logins and these edits reaches a key that is still locked and that Check lets in |
| ThrottleInterleaved.EditsSpareLocksExactly | internal/auth/bruteforce.go:146-161 | For any sequence of edits, none of which overflows: over all runs with these edits cleaning never changes an answer of Check if and only if the window in force is at least every cap that was in force |
| ThrottleInterleaved.CarelessEditUnlocks | internal/auth/bruteforce.go:146-161 | A concrete edit that ends a 64-minute lock after 3 minutes |
| ThrottleWaiting.RunWaits | internal/auth/bruteforce.go:50-102 | In every such run each lock was waited out before it was renewed, and while one lasts its failures and the pending logins together fit into p for each lock so far |
| ThrottleWaiting.FailuresPerLock | internal/auth/bruteforce.go:50-102 | In every interleaved run with at most p logins pending on a key at a time, the failures of a chain counted before its first lock plus the first n lockouts are at most MaxAttempts - 1 + n*p |
| ThrottleWaiting.AllMayFailAtOnce | internal/auth/bruteforce.go:50-102 | Any number of logins that pass Check before the first lock may all fail at one instant |
| Permissions.NormalizePerms | internal/auth/admin.go:438-455 | Succeeds exactly on known permissions, with the first occurrences in order; otherwise names the first unknown one |
| Permissions.FirstOccurrencesFaithful | internal/auth/admin.go:438-455 | Normalizing loses no permission, invents none and repeats none |
| Permissions.FirstOccurrencesInOrder | internal/auth/admin.go:445-453 | Permissions keep the order of their first occurrence |
| Permissions.NormalizedIsFixed | internal/auth/admin.go:438-455 | A list without repetitions is left as it is |
| Permissions.NormalizingTwice | internal/auth/admin.go:438-455 | Normalizing is idempotent and gives a clean list |
| AccountRuns.RunSound | internal/auth/auth.go:102-143 | In every reachable state an account has no hash exactly when its source is ldap or imap, and every group's list is duplicate-free and known |
| AccountRuns.NoPasswordForExternal | internal/auth/auth.go:130-143 | In every reachable state verify accepts no password for an external account |
| AccountRuns.SourceChanges | internal/auth/admin.go:149-153 | An account that stays changes its source only by being provisioned, which leaves it without hash and role |
| AccountRuns.ListedFaithful | internal/auth/auth.go:170-179 | The permission list enumerates exactly the permissions of the set that are in ValidPerms, once each |
| AccountRuns.ListedInOrder | internal/auth/auth.go:170-179 | It does so in ValidPerms order |
| AccountRuns.PermissionListLossless | internal/auth/auth.go:146-179 | In every reachable state permsList enumerates exactly effectivePerms, so it has as many elements |
| AccountRuns.WithoutConcat | internal/auth/admin.go:300-306 | Removing a group from a list works piece by piece, so order is kept |
| AccountRuns.WithoutCounts | internal/auth/admin.go:300-306 | The removed name occurs no more and every other as often as before |
| AccountRuns.DeleteGroupEffect | internal/auth/admin.go:288-315 | Nobody gains a permission, admins keep all, and a member has exactly the union over the remaining groups |
| AccountRuns.StepKeepsAdmin | internal/auth/admin.go:125-214 | A step loses the last administrator if and only if it provisions that very account from another source |
| AccountRuns.ProvisionKeepsAdmin | internal/auth/ldap.go:66-79 | Provisioning loses the last administrator exactly when it replaces that account |
| AccountRuns.AdminFloor | internal/auth/admin.go:125-214 | A server with an administrator has one after every run without such a provisioning |
| AccountRuns.GuardFollowsLiveState | internal/auth/auth.go:305-341 | A request passes both guards exactly when its session is live at the first and the users and groups at the second grant the permission |
| AccountRuns.DeletedUserIsShutOut | internal/auth/admin.go:186-214 | Until then no session for the user passes a permission guard, not even one inserted late |
| AccountRuns.ClosedForGood | internal/auth/auth.go:277-327 | After logout, or once found expired, a token authenticates nobody at any time of any run that does not reopen it |
| AccountRuns.SetPasswordIsAccepted | internal/auth/admin.go:105-116 | A password set by creation or by an accepted update is accepted by verify |
| AccountRuns.PermissionsChangeOnlyBy | internal/auth/auth.go:146-168 | What a user may do changes only by a step on that user or on a group the member's list names |
| AccountRuns.MembershipAccounted | internal/auth/admin.go:125-315 | In every reachable state a list names existing groups or names that a creation or provisioning of the run brought in without looking them up |
| AccountRuns.DeleteUndoesCreate | internal/auth/admin.go:92-214 | Creating and deleting a user restores the state if and only if no session named the user before and the user is no administrator or there already was one |
| AccountRuns.DeleteGroupUndoesCreate | internal/auth/admin.go:226-315 | Creating and deleting a group restores the state if and only if no list named it before |
| AccountEffects.CreateUserExactly | internal/auth/admin.go:92-123 | Accepted exactly for a named user with password, known role and free name; stores that account, a member in the users group, and nothing else; each refusal has its status |
| AccountEffects.CreatedUserMay | internal/auth/admin.go:111-116 | A new member may do what the users group may, a new administrator everything |
| AccountEffects.UpdateUserExactly | internal/auth/admin.go:125-184 | Accepted exactly under the five conditions; each field given takes effect, each left out stays, and a refused request changes nothing |
| AccountEffects.DemotionTakesEffect | internal/auth/admin.go:168-177 | A demoted administrator is left with what the groups of its list grant |
| AccountEffects.DeleteUserExactly | internal/auth/admin.go:186-214 | Accepted exactly for a user that is not the only administrator; takes it and its sessions and nothing else |
| AccountEffects.AdministratorIsListedAll | internal/auth/auth.go:170-179 | An administrator's list is download, audit, users, groups |
| AccountEffects.CreateGroupExactly | internal/auth/admin.go:226-255 | Accepted exactly for a new name and known permissions; the group holds exactly those, each once |
| AccountEffects.UpdateGroupExactly | internal/auth/admin.go:257-286 | Accepted exactly for an existing group and known permissions; the new list is stored and no other group changes |
| AccountEffects.GroupUpdateTakesEffect | internal/auth/admin.go:279 | A member of just that group may from then on do what the new list says |
| AccountEffects.SessionsCloseAlone | internal/auth/auth.go:277-327 | Logging out closes the one session, an expired session goes alone, all others stay |
| AccountEffects.StartUp | internal/auth/auth.go:102-116 | There is exactly one account for each configured user, the last entry with a name and a password counting |
| AccountEffects.StartUpMay | internal/auth/auth.go:76-116 | A configured member starts with the download permission alone, an administrator with all four |
| Logins.SessionsAlwaysNamed | internal/auth/auth.go:258-260 | With logins atomic, every session in every reachable state names an existing user |
| Logins.LocalLoginIsLocal | internal/auth/auth.go:203-235 | A local account is entered exactly with its password, whatever the directories answer, and no login changes it |
| Logins.LoginOpensSession | internal/auth/auth.go:253-260 | A login that succeeds, by any source, opens exactly its token's session with the account's role, accepted up to its expiry and not after; any other login changes no session |
| Logins.OutcomeExactly | internal/auth/auth.go:203-251 | Each outcome in terms of the account, the password and the answers: local password first, then the directory with its defaults, then the mail server with its own or the approval it lacks |
| Logins.InterleavingsAreRuns | internal/auth/auth.go:181-275 | Interleaved logins reach only states that the account steps reach, so every run guarantee covers them |
| Logins.InterleavedSound | internal/auth/auth.go:102-143 | Credential kinds and clean lists hold under every interleaving of logins |
| Logins.SeenAsLocalStaysLocal | internal/auth/auth.go:203-235 | A login that begins on a local account never reaches an external fallback and finishes only with the password the account had when it began, in every continuation, however the account changes meanwhile |
| Logins.EventKeepsNamed | internal/auth/auth.go:258-260 | An event leaves a session without its user if and only if it finishes a login whose user is gone |
| Logins.LateSessionDangles | internal/auth/auth.go:258-260 | A concrete interleaving with DeleteUser that leaves such a session |
| Logins.LoginLosesFloorExactly | internal/auth/auth.go:203-235 | A login loses the last administrator if and only if it is that account, external and without a matching local password, accepted by the other directory under the settings in force |
| Logins.DirectoryLoginDemotesLastAdmin | internal/auth/ldap.go:66-79 | A concrete sequence of atomic logins and admin steps that leaves no administrator |
| Service.Compact | internal/auth/admin.go:300-306 | The in-place filter leaves the old list without the group, in order, at the front of the same array |
| Service.Service.constructor | internal/auth/auth.go:68-119 | Two groups, no sessions, and the configured users with blank ones skipped and unknown roles made members |
| Service.Service.AdminCount | internal/auth/admin.go:463-471 | The loop's result is the size of the set of administrators, in any iteration order |
| Service.Service.Verify | internal/auth/auth.go:130-143 | Distinguishes unknown users, accounts without a local credential, and a matching password |
| Service.Service.EffectivePerms | internal/auth/auth.go:146-168 | The nested loops compute everything for admins and the union over the existing groups for members |
| Service.Service.PermsList | internal/auth/auth.go:170-179 | The effective permissions listed in ValidPerms order |
| Service.Service.CreateUser | internal/auth/admin.go:92-123 | The new state and status of creation, with malformed requests and existing names refused unchanged |
| Service.Service.KnownGroups | internal/auth/admin.go:154-162 | Accepts exactly the lists all of whose groups exist |
| Service.Service.Revise | internal/auth/admin.go:168-176 | The three optional changes, a new list coming in a new array |
| Service.Service.UpdateUser | internal/auth/admin.go:125-184 | The new state and status of an update, through every refusal including the last admin |
| Service.Service.CloseSessions | internal/auth/admin.go:203-207 | The loop removes exactly that user's sessions, in any iteration order |
| Service.Service.DeleteUser | internal/auth/admin.go:186-214 | The user and exactly its sessions are gone, or the request is refused unchanged |
| Service.Service.CreateGroup | internal/auth/admin.go:226-255 | The new group holds the normalized list; blank names, unknown permissions and existing groups are refused |
| Service.Service.UpdateGroup | internal/auth/admin.go:257-286 | An existing group gets the normalized list |
| Service.Service.RemoveFromAll | internal/auth/admin.go:299-308 | The in-place compaction is right for all users at once, since no two lists share an array |
| Service.Service.DeleteGroup | internal/auth/admin.go:288-315 | The group is gone and every list is its old one without it |
| Service.Service.ProvisionLDAP | internal/auth/ldap.go:66-79 | Keeps an ldap account as it is and otherwise stores a member with its own copy of the defaults |
| Service.Service.ProvisionIMAP | internal/auth/imap.go:78-94 | The same for imap, and refused without a change when auto-provisioning is off |
| Service.Service.OpenSession | internal/auth/auth.go:258-260 | One session more, expiring after the configured lifetime |
| Service.Service.Login | internal/auth/auth.go:181-275 | Local password first, then the directory, then the mail server; a success stores exactly one session, with the account's role and expiring after the lifetime, any other login none |
| Service.Service.Logout | internal/auth/auth.go:277-291 | The token's session is gone |
| Service.Service.RequireAuth | internal/auth/auth.go:305-328 | An expired session is deleted and refused; a live one names its user |
| Service.Service.RequirePerm | internal/auth/auth.go:330-341 | Passes exactly when the current users and groups grant the permission |
| LoginFlow.ThrottleRunsHistory | internal/auth/auth.go:181-275 | The throttle inside the endpoint, with state reads, resets, posted events and the events of other handlers interleaved, goes through a sequential throttle history, so all guarantees about those are about logins |
| LoginFlow.StepLogs | internal/auth/auth.go:194-262 | After any part of the log, a login shows a failure exactly when the throttle counts one |
| LoginFlow.PasswordAdmits | internal/auth/auth.go:194-262 | Once Check lets the right local password in, the login succeeds and its token is accepted up to the expiry |
| LoginFlow.SuccessOpensSession | internal/auth/auth.go:236-262 | A login logs a success exactly when it opens its session, and one turned away changes no account and no session |
| LoginFlow.OutcomeIsLogged | internal/auth/auth.go:236-262 | A success leaves one event, a failure one, an unapproved login two |
| LoginFlow.GenuineLogTellsFailures | internal/auth/auth.go:194-262 | In every run what the server itself logged since the last reset of a key yields exactly the failures that the throttle counts against the key |
| LoginLog.RecentLogTellsFailures | internal/audit/audit.go:170-186 | The log as it is, from the last reset of a key on, yields them if no client posted about the key since |
| LoginLog.LogTellsUsernames | internal/audit/audit.go:179-184 | For every username it does in every run, since posted events carry no user |
| LoginLog.LogTellsFailuresExactly | internal/audit/audit.go:170-186 | For any key the whole log yields them if and only if the failures it wrongly shows, posted or older than the last reset, equal those it wrongly hides behind such successes; unless all fell on one instant that means there are none of either |
| LoginLog.LogTellsUsernamesExactly | internal/auth/auth.go:360-378 | For a username the whole log yields them if and only if no failure older than its last reset is left uncleared |
| LoginLog.LogDecidesNextLogin | internal/auth/auth.go:194-201 | The next login is turned away exactly when what the server itself logged since the last resets of its two keys says so, and then the accounts do not change, whatever the password |
| LoginLog.ResetIsNotLogged | internal/auth/auth.go:360-378 | A concrete run: after one failure and a reset of everything the log alone still shows a locked username that the throttle lets in |
| LoginLog.PostShowsLocked | internal/audit/audit.go:170-186 | One posted event and no login at all: the log shows an address as locked from which the throttle lets logins in |
| LoginLog.PostHidesFailure | internal/audit/audit.go:170-186 | One posted success after a failure: the log shows nothing while the throttle turns the address away |
| LoginEndpoint.Settle | internal/auth/auth.go:236-262 | Reset or failure on the real throttle, and a success event exactly for a login that succeeded |
| LoginEndpoint.Decide | internal/auth/auth.go:194-259 | Check first and nothing else when it refuses; otherwise the accounts, then RecordFailure or Reset, on the mutable parts |
| LoginEndpoint.Login | internal/auth/auth.go:181-275 | The handler over the mutable throttle, service and shared log does what the endpoint's step says to all three; the login counters count its events; the token's session is stored exactly when the first event is a success |
| LoginEndpoint.Post | internal/audit/audit.go:170-186 | A client's event goes to the shared log with the action of its choice, no user, the connection's address and the current time |
| LoginEndpoint.Unlock | internal/auth/auth.go:360-378 | The reset request on the real throttle: everything, else the address, else the username, else nothing |
| AuditPipeline.RunConserves | internal/audit/store.go:75-107 | Over every interleaving accepted events are the batches handed over, the batch and the channel in order; the database holds the committed batches; at most 10000 wait and at most 499 are batched; the events offered are the accepted and the dropped ones, as often |
| AuditPipeline.DropsOnlyWhenFull | internal/audit/store.go:75-81 | An event is dropped if and only if the channel is full |
| AuditPipeline.WrittenIsPrefix | internal/audit/store.go:83-107 | With successful commits, accepted is written, batch and channel in order; once the flusher has returned, written is a prefix short by at most 499 |
| AuditPipeline.ClosingConserves | internal/audit/store.go:83-107 | From Close to the return nothing more is accepted, and what is missing at the end is the batch being collected |
| AuditPipeline.CloseKeepsAllExactly | internal/audit/store.go:83-107 | Over all committing schedules of the flusher from Close to its return, ticks included: Close is sure to keep every accepted event if and only if nothing was in the batch or the channel |
| AuditPipeline.CloseMayKeepAll | internal/audit/store.go:83-107 | Whatever is on its way, some schedule keeps all of it: only the timing decides |
| AuditPipeline.TicklessCloseKeepsAllExactly | internal/audit/store.go:83-107 | If the ticker never comes first, Close keeps every accepted event if and only if those on their way are a multiple of 500 |
| AuditPipeline.CloseLosesOne | internal/audit/store.go:140-144 | A concrete run that loses its only event |
| AuditQuery.FilterClause | internal/audit/store.go:165-185 | The text and the arguments are those of the conditions asked for, in the same order |
| AuditQuery.FilterPreservesMeaning | internal/audit/store.go:165-185 | For every query, every row and any way the database compares texts, evaluating the WHERE text with arguments bound left to right is the direct row predicate and uses up exactly its arguments |
| AuditQuery.StatementPreservesMeaning | internal/audit/store.go:200-203 | The appended limit and offset bind to LIMIT and OFFSET |
| AuditQuery.FiltersMean | internal/audit/store.go:165-185 | Each filter alone selects by action, by user pattern, from and to the whole second of a bound; together they select the common rows |
| AuditQuery.PageExactly | internal/audit/store.go:200-203 | A page is the rows from the offset on, as many as the limit allows |
| AuditQuery.RunQuery | internal/audit/store.go:188-224 | A page of the matching rows; at most 1000 without a limit, all of them if there are no more; negative offsets are 0 |
| AuditQuery.RunCount | internal/audit/store.go:227-232 | The number of matching rows |
| AuditQuery.MatchingIsFilter | internal/audit/store.go:165-185 | Every matching row occurs as often as in the table and no other does |
| AuditLog.Store.Enqueue | internal/audit/store.go:75-81 | The send that never blocks, as a step of the pipeline |
| AuditLog.Store.Drain | internal/audit/store.go:109-137 | The insert loop commits the whole batch or nothing |
| AuditLog.Store.Receive | internal/audit/store.go:91-99 | The flusher's turn on the channel, full batch and closed channel included |
| AuditLog.Store.Tick | internal/audit/store.go:100-104 | The flusher's turn on the ticker |
| AuditLog.Store.Close | internal/audit/store.go:140-144 | Closes the channel and returns when the flusher has, after whatever turns it took, with transactions that commit or fail: the state is that of the run of these turns |
| AuditLog.Log.constructor | internal/audit/audit.go:53-58 | An empty log with the default window of 5000 |
| AuditLog.Log.AddEvent | internal/audit/audit.go:64-83 | After every addition the window is the end of the whole history, as long as there is room, the login counters count the whole history, and the store is offered exactly the history |
| AuditLog.Log.Query | internal/audit/audit.go:94-115 | Without a store exactly the window's events with that user and action, newest first, up to the limit, the last event added being first when nothing is filtered; with one, the page of the matching rows of its table in the order the database chooses |
| AuditLog.NewestMatchingReverses | internal/audit/audit.go:101-113 | Scanning the window backwards is filtering the reversed window |
| AuditLog.Log.StartDownload | internal/audit/audit.go:124-126 | One active download more |
| AuditLog.Log.EndDownload | internal/audit/audit.go:128-130 | One active download less |
| AuditLog.QueryMissesExactly | internal/audit/store.go:75-137 | In every reachable state each addition of a matching event is among the rows, in the batch, in the channel, dropped or rolled back, and in only one of them |
| AuditLog.CountersRunAheadExactly | internal/audit/audit.go:64-83 | In every reachable state an action occurs in the history, which the login counters count, as often as a query for it finds rows and in the batch, the channel, the dropped and the rolled-back events |
| AuditLog.FormatBytes | internal/audit/audit.go:225-239 | For every int64 the divisor is the power of 1024 just below the size, the unit index is in range and nothing overflows |
| AuditPaging.Client.FetchAuditPage | internal/handlers/app.js:928-936 | One page of 200 matching rows together with their full number |
| AuditPaging.Client.LoadAuditData | internal/handlers/app.js:938-947 | The first page replaces what is shown; a failed request changes nothing |
| AuditPaging.Client.LoadMoreAudit | internal/handlers/app.js:949-953 | A request is sent only when none is in flight and rows are missing, with the filter fields as they then are |
| AuditPaging.Client.MoreArrived | internal/handlers/app.js:953-961 | The answer to the filter and offset asked for is appended, the counts follow, and the flag is cleared even on failure |
| AuditPaging.ScrollingKeepsStep | internal/handlers/app.js:938-962 | However scrolls, answers, failures and reloads interleave, no row is shown twice, skipped or out of order, as long as no page is asked for under edited fields and no reload arrives while a page is in flight |
| AuditPaging.AnswerKeepsExactly | internal/handlers/app.js:953-961 | Any answer keeps a right list right if and only if it fails, or counts as many rows and brings what comes next |
| AuditPaging.EditedFieldsKeepExactly | internal/handlers/app.js:918-931 | A further page asked for after the fields were edited keeps the list right if and only if it fails or the edit changes neither the count nor that page |
| AuditPaging.RoundsShow | internal/handlers/app.js:949-962 | Each answered scroll shows up to one page more |
| AuditPaging.FailedPageIsAskedAgain | internal/handlers/app.js:949-962 | A page that fails is asked for again by the next scroll |
| AuditPaging.PageLoopShowsAll | internal/handlers/app.js:938-962 | The loop ends with every matching row shown once, as many as Count says, and nothing more to send |
| AuditPaging.ReloadInFlightSkips | internal/handlers/app.js:938-962 | A concrete reload with the same filter that overtakes a further page and leaves rows unshown |
| AuditPaging.ReloadSpoilsExactly | internal/handlers/app.js:938-962 | A page of the old list overtaken by a reload, with the same or another filter, leaves the new list right if and only if it does not arrive, or both lists are equally long, longer than a page, and the page is what follows the new first page |
| AuditPaging.SameFilterSpoilsExactly | internal/handlers/app.js:938-962 | With the same filter and distinct rows that is: it does not arrive or it is the second one |
| AuditPaging.FilterChangeSpoils | internal/handlers/app.js:148-155 | Submitting another filter while the second page is in flight leaves rows of the old filter in the new list |
| Downloads.RunConsistent | internal/handlers/download.go:54-138 | Over every interleaving: streaming handlers = active count <= held slots = semaphore <= capacity, every slot acquired is held or released once, and each handler past its slot has exactly one event |
| Downloads.HandledIsRun | internal/handlers/download.go:54-138 | A request alone, refused, failing before the stream or streaming, is a run of the protocol that leaves nothing but one event for a held slot |
| Downloads.QuiescenceRestores | internal/handlers/download.go:54-138 | When all have returned, semaphore and active count are zero, and acquired, released, events and served handlers agree |
| Downloads.NeverStuck | internal/handlers/download.go:62-68 | Every unfinished handler can move, and the deferred release never blocks |
| DownloadHandler.Handler.constructor | internal/handlers/download.go:27-39 | No slot taken and the default capacity of 50, on a shared audit log |
| DownloadHandler.Handler.StartDownload | internal/handlers/download.go:134 | One more active download in the shared log, as a step of the slot protocol |
| DownloadHandler.Handler.EndDownload | internal/handlers/download.go:136 | One less, whatever the outcome |
| DownloadHandler.Handler.LogDownload | internal/handlers/download.go:255-290 | Exactly one event, with the fields of the request, the provider and the outcome, at the end of the shared log |
| DownloadHandler.Handler.StreamFile | internal/handlers/download.go:134-137 | The stream is counted while it lasts and its event tells the outcome and the bytes |
| DownloadHandler.Handler.WithSlot | internal/handlers/download.go:70-138 | Each path has its status, streams exactly known, resolved files within the limit, writes one event that tells request, provider, outcome and bytes, and leaves the active count alone |
| DownloadHandler.Handler.TakeSlot | internal/handlers/download.go:62-68 | A slot is taken or the request ends without one |
| DownloadHandler.Handler.ServeHTTP | internal/handlers/download.go:54-138 | A file is served if and only if the URL is accepted, a slot is free, the provider is known, the file is resolved and its size allowed; every refusal has its status; every path is a course of the slot protocol that gives back slot and active count and writes its one event if and only if a slot was held |
| Registry.HostMapHolds | internal/providers/registry.go:22-29 | The map holds exactly the registered hosts, each with the last provider that registered it |
| Registry.Registry.Register | internal/providers/registry.go:22-29 | The loop leaves the map of all registrations so far |
| Registry.Registry.ResolveProvider | internal/providers/registry.go:41-64 | Parse errors first, then the exact host, then the first host above it in iteration order |
| Registry.ResolvesExactly | internal/providers/registry.go:41-64 | A lookup succeeds if and only if the host is registered or lies below a registered one, for every order |
| Registry.OneAnswerExactly | internal/providers/registry.go:55-62 | A lookup has one answer for every order if and only if its host is registered or no two providers have hosts above it; this is about one host, whatever hosts a parsed URL can have |
| Registry.NoNestingIndependent | internal/providers/registry.go:41-64 | Without nested hosts every request has one answer |
| Registry.NestingDepends | internal/providers/registry.go:58-62 | If a host that some text can lie below lies below another provider's host, that text has two answers |
| Registry.RoutingIndependentExactly | internal/providers/registry.go:41-64 | If any text can be a request's host, routing is independent of the order if and only if no colon-free, lower-case host of one provider lies below a host of another |
| Registry.SeparateIsNotNested | internal/providers/registry.go:22-29 | Registrations with neither equal nor nested hosts give a map without nesting |
| Registry.SeparateRouting | internal/providers/registry.go:41-64 | With them a host at or below a registered one is routed to the provider that registered it, for every order |
| Registry.RequestReachesProvider | internal/providers/registry.go:41-64 | With separate registrations a request for a registered host or one below it, in any case, with or without port and trailing dot, answers the provider that registered it |
| Registry.RequestReachesNobody | internal/providers/registry.go:55-63 | It answers nobody exactly when no registered host is the one looked up or above it |
| Registry.NormalizedVariants | internal/providers/registry.go:46-50 | Case, a port and one trailing dot make no difference to the host looked up |
| Registry.LowerHostIsItself | internal/providers/registry.go:46-50 | A lower-case host without port and trailing dot is looked up as itself |
| Registry.NormalizedParts | internal/providers/registry.go:46-50 | Nothing but case, one trailing dot and what starts at the first colon is removed |
| Registry.BelowExactly | internal/providers/registry.go:58-60 | Below means something, a dot and the host |
| Registry.CutPortExact | internal/providers/registry.go:47 | The port is cut at the first colon |
| Registry.NormalizedExactly | internal/providers/registry.go:46-50 | Out of any text, normalizing makes exactly the texts without a colon and without upper case |
| MailDomains.LastAt | internal/auth/imap.go:62-66 | Finds the last at sign, if any, and with it the domain |
| MailDomains.DomainIsLastPart | internal/auth/imap.go:62-66 | The domain is what follows the last at sign |
| MailDomains.ImapDomainAllowed | internal/auth/imap.go:57-73 | Allowed exactly when a trimmed entry equals the domain up to case |
| MailDomains.AddressAllowedExactly | internal/auth/imap.go:57-73 | An address is allowed exactly when its domain is a listed entry without the spaces around it, up to case; without an at sign never |
| MailDomains.NormalizedConcat | internal/auth/imap.go:100-106 | Entries are normalized one by one, order and repetitions kept |
| Text.LowerExactly | internal/auth/imap.go:66-68 | Lower-casing identifies exactly the texts that differ in the case of letters only |
| Text.TrimExactly | internal/auth/imap.go:68 | Trimming cuts off the spaces at both ends, all of them and nothing else |
| MailDomains.NormalizeInPlace | internal/auth/imap.go:100-106 | The in-place loop leaves the canonical entries, blanks dropped, in order |
| MailDomains.NormalizedHolds | internal/auth/imap.go:100-106 | The normalized list holds exactly the canonical forms that are not blank |
| MailDomains.NormalizingKeepsDecisions | internal/auth/imap.go:57-106 | Normalizing changes no decision except that an address ending in its at sign is never allowed |
| MailDomains.BlankEntryAllowsEmptyDomain | internal/auth/imap.go:67-71 | The exception occurs: a blank entry admits the empty domain |

## Left out

- LDAP and IMAP network calls: their answers, the domain check included, are booleans given to the login step.
- Password hashing, salts and tokens: the hash is any function with a non-empty result, salts and tokens are supplied; nothing is claimed about collisions or timing.
- SQLite, its schema, Purge, VACUUM and TotalBytes: the table is a sequence of rows given in result order, a transaction commits a whole batch or nothing, and the table starts empty.
- Times as formatted text: a stored time and a bound, cut to whole seconds, are integers, and how the database compares them is any relation, as for LIKE.
- SQL as text: the WHERE fragment and the statement are token sequences read by a small evaluator; on an empty table it does not check the statement.
- JSON and YAML decoding, configuration files, HTTP headers, cookies, response bodies and the text of lock reasons.
- The texts of the events of other handlers: they are logged with any action that is not a login's; reasons and sources in the detail of login events are not specified.
- Settings edits in the sequential histories: the history-only specification is for fixed settings, edits are part of the interleaved runs.
- Roles, sources and permission names are tagged values instead of strings; unknown ones carry their text.
- Data race on `s.users` in `verify`, which reads the map outside the mutex; each read is one step here.
- `ListUsers`, `ListGroups`, `Me`, the LDAP and IMAP settings handlers, `InfoHandler`, `RecentHandler`, the metrics and export handlers.
- Default groups in `normalizeIMAP` and the default port: one-branch facts beside the domain list.
- `RateLimiter`: its token bucket is not part of this model.
- Provider clients, link formats and the network copy of `Stream`: a resolution and a stream are results given to the handler.
- URL parsing: the host arrives parsed or not at all, and may be any text; real parsers yield fewer, for which Registry.OneAnswerExactly decides host by host.
- Unicode: lower-casing, case folding and trimming are those of ASCII text; Unicode spaces and the Latin-1 ones are not trimmed.
- Access log, security headers, client address, file-name clean-up, and the rest of the page's script.
- Handler panics, and events sent to the audit store after Close, are absent by assumption.
- `computeLockout` in floating point: integers are exact for a base and a cap up to 2^53.
- `now.Sub` saturates at about 292 years and failure counters wrap at 2^63; neither is modelled, and every failing input shown stays below both.
- DownloadHandler.Handler.ServeHTTP: nothing interleaves inside one call, so the wait for a slot fails at once when none is free; the interleaved wait is the `TimeOut` step of the slot protocol.
- Downloads.NeverStuck: says that a step is enabled, not that a scheduler takes it.
- AuditPaging.SameFilterSpoilsExactly: asks for distinct rows, since the row identity of the table is not part of an event here.
- AuditPaging.Client.LoadAuditData: request and response are one step, at the time of the response and with the filter of the request.
- ThrottleInterleaved.EditsSpareLocksExactly: for settings none of which overflows; what overflow does is in ThrottleHistory.OverflowForgets.
- Logins.SessionsAlwaysNamed: holds with logins atomic; the interleaved case is false and has its exact condition in Logins.EventKeepsNamed.
- AuditLog.Store.Close: the flusher's turns between Close and its return are chosen by the caller of the method, for want of a scheduler; closing the database file is not modelled.
- AuditPaging.PageLoopShowsAll: the table does not change between pages, and a store is present; without one `Count` answers 0 and no further page is asked for.
