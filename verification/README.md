# Dvarpala: a verified model of who gets on the VPN

Dvarpala lets a person onto a VPN when they hold a session, and keeps everything
about sessions, one-time codes, login attempts and emergency links in one Redis
keyspace whose keys expire. This project models that keyspace, the services built on
it and the small engines around them, and proves what they promise over whole runs.

How it is laid out, bottom up:

- `prelude`, `text`, `numerals`: options, the ASCII string helpers, numerals and fields.
- `cells`: one family of expiring keys as a typed map, with GET, SET, DEL, EXPIRE, TTL and INCR.
- `sessions`, `sessionhistory`, `lifetime`, `interleaving`, `active`: the session store as
  functions, its cross-key invariant, what it answers told from the history of calls,
  how long a session lives, the same store with every operation split and interleaved,
  and the listing of live sessions.
- `otp`, `otphistory`, `otplimits`, `otpinterleaving`: one-time codes, the log they
  refine, how much can be asked and guessed in a day, and the same store with guesses and
  exchanges split into their commands and interleaved.
- `accounts`, `login`: accounts, login attempts, emergency access and the gate.
- `system`, `conservation`, `signin`, `gate`, `answers`: the server as one machine whose
  steps are its public operations, the theorems about every run of it, and what each
  operation answers after any run, told from the operations alone.
- `keys`, `redis`: the string keyspace, proved to stand for the typed maps, and the class
  that holds it.
- `sessionservice`, `otpstore`, `userservice`, `breakglass`, `service`, `vpnapi`, `portal`:
  the source's objects as classes over that Redis. Every method is proved to do what the
  function of the same name does, so that the theorems about the functions are about them.
- `ipv4`, `permissions`, `routes`: CIDR arithmetic, grants, and the routes a client gets.
- `shellquote`, `idle`, `mailer`, `management`: quoting for a remote shell, the idle
  sweeper, the mail dialler's budget, and OpenVPN's control channel.

Conventions. Time in the keyspace is a whole number of seconds and a key can be read
strictly before its deadline; `idle` counts nanoseconds, as Go's durations do, and
`mailer` milliseconds. Each public operation is one atomic step, except in `interleaving`
and `otpinterleaving`. Random tokens and codes, what an identity provider or the domain
allow-list answers, whether a mail was delivered, and how long a dial takes are
parameters; tables are maps and sets, and a query is a method that computes its rows.
Where it matters that 256-bit random values never repeat, a theorem says so
(`TokensDistinct`, `DrawsDistinct`).

Where the code and its documentation part ways the model follows the code, and a lemma
says exactly when the documented promise holds:

- "A disconnect shortens the session": only when at least the grace period was left
  (`Lifetime.DisconnectShortensIff`, `Lifetime.DisconnectCanOutliveTheSession`). The
  session's own expiry still bounds what can be read.
- "Bind the state to the provider and client": the client is stored and never compared.
  A login begun at one address completes from any other, with its session for that
  other; the session is for the recorded client exactly when the two are the same
  (`Login.StateIgnoresClient`).
- "vm and database resources need an address": an address of blanks passes the check and
  is stored empty (`Permissions.MachineIsRoutableIff`, `Permissions.BlankMachineAccepted`).
- "The caller learns nothing" from asking for a code: true of the answer as long as no rate
  limit and no failed delivery is reported (`Login.SilentAnswerIff`); asking twice in a row
  tells an account apart (`Login.AskingTwiceTellsThemApart`).
- Revoking a session deletes "its client-IP alias": the alias of its address, whichever
  session that leads to. Every other session keeps its address exactly when the revoked
  one's leads nowhere or to itself (`Lifetime.RevokeSparesOthersIff`); signing out the
  elder of two sessions at one address unbinds the younger
  (`Lifetime.RevokingTheElderUnbindsTheYounger`).
- A revocation is final, once operations interleave, exactly when it had read the session
  or no address led to its token when it committed (`Interleaving.RevocationIsFinalIff`,
  and `Interleaving.UnreadRevokeIsNotFinal` for a run in which it is not).
- "So a stale VPN session cannot immediately re-authenticate the browser": a logout ends
  the caller's session under cookie and address, but the session the address led to lives
  on, under its own token, exactly when the cookie named another session for that address
  (`Portal.LogoutClosesTheAddressIff`, `Portal.LogoutLeavesTheYounger`). It rests on the
  two views agreeing, which interleaved operations can break
  (`Portal.LogoutAfterInterleaving`).
- "Spend the code" and "consuming it here makes it single-use": true of operations that do
  not overlap. Nothing is checked between the read of a code, or of a verification, and
  the write that spends it. A second right guess earns too, and a second exchange finds the
  address too, exactly when its read came before the first one's write
  (`OtpInterleaving.SecondGuessEarnsIff`, `OtpInterleaving.SecondExchangeFindsIff`, and
  `OtpInterleaving.OneCodeEarnsTwice` for a run). In the same way a guess is compared, however
  many are in flight, until the write that the fifth counted one leads to
  (`OtpInterleaving.GuessIsComparedIff`).
- A tunnel is closed once it has been "left unidentified for" the timeout: its age is
  counted from the whole second the server reports, and a tunnel whose connection time is
  not reported (older servers' lines stop before it) is closed whatever its age
  (`Idle.SparedIff`, `Idle.UnreportedTunnelIsClosed`).

The bound on guessing comes out sharper than the eleven codes of five guesses one would
count: fifty in a day, not fifty-five (`OtpLimits.GuessBound`).

## Model

| member | source | states |
|---|---|---|
| Keys.KeyInjective | internal/auth/otp.go:54-58 | no two of the nine key families ever share a key, and within a family the key determines its argument, for all arguments |
| Keys.CommandsRefine | internal/auth/session.go:53-63 | the one string keyspace stands for nine separate typed maps: GET finds what its family's map holds, and SET, DEL and EXPIRE change that map and no other |
| Keys.IncrementRefines | internal/auth/otp.go:103 | INCR counts in its own family's map and leaves every other map alone |
| RedisStore.Redis.GetDel | internal/auth/service.go:34-41 | the script returns what was there and leaves nothing there, so a second call finds nothing |
| RedisStore.Redis.Scan | internal/auth/session.go:191-194 | every live key of a family turns up at least once, in no promised order |
| Sessions.CreateAgrees | internal/auth/session.go:65-91 | a new session keeps the two views of every session in agreement |
| Sessions.RevokeAgrees | internal/auth/session.go:129-148 | so does revoking one, readable or not |
| Sessions.RevokeByClientIPAgrees | internal/auth/session.go:150-162 | so does revoking by address |
| Sessions.RetimeAgrees | internal/auth/session.go:255-286 | so do a disconnect and a reconnect, which give both keys one deadline |
| SessionHistory.RunAgrees | internal/auth/session.go:53-63 | after any run of calls and any passing of time, whatever an address leads to is stored, with the same deadline, under its token |
| SessionHistory.LookupByAddress | internal/auth/session.go:98-127 | the lookup by address returns s exactly when s is the latest session issued for it, no readable session carrying the address was revoked since, and it has not lapsed, all told from the events alone; then the lookup by token returns s with the same deadline, and that deadline is the one the events give |
| SessionHistory.LookupByToken | internal/auth/session.go:93-127 | the lookup by token returns s exactly when s was issued under it, no event has revoked it by its token or at an address it stood at, and it has not lapsed, all told from the events alone; and its deadline is the one the events give |
| SessionHistory.StandingIsNotRevoked | internal/auth/session.go:129-162 | while a session can be found, by address or by token, no call has revoked it, by its token or through an address that led to it |
| Lifetime.ReadableAfterDisconnect | internal/auth/session.go:255-271 | after a disconnect with nothing following, both lookups return the session exactly while the grace period lasts and its expiry has not passed |
| Lifetime.DisconnectShortensIff | internal/auth/session.go:243-271 | a disconnect leaves no more time than there was exactly when at least the grace period was left |
| Lifetime.DisconnectCanOutliveTheSession | internal/auth/session.go:264-266 | a ten-second session is given a deadline past its own expiry |
| Lifetime.NeverReadPastExpiry | internal/auth/session.go:120-124 | whatever a run contains, no lookup returns a session more than its lifetime after it was issued |
| Lifetime.CommuteRestoresIff | internal/auth/session.go:273-286 | a chain of disconnects and reconnects that ends before the expiry restores it in full exactly when every gap was shorter than the grace period; otherwise the session is gone |
| Lifetime.RevokeFrame | internal/auth/session.go:139-143 | a revocation closes its token and whatever holds its address, for good, and changes no other lookup |
| Lifetime.RevokeSparesOthersIff | internal/auth/session.go:128-148 | no other session loses its address to a revocation exactly when the revoked one's address leads nowhere or to itself |
| Lifetime.RevokingTheElderUnbindsTheYounger | internal/auth/session.go:139-143 | of two sessions issued in turn at one address, revoking the elder leaves the younger unfindable by address and found by token |
| Lifetime.RevokeByClientIPCloses | internal/auth/session.go:150-162 | revoking by address closes the address and the token it led to, for good |
| Lifetime.RevokeByClientIPClosesIff | internal/auth/session.go:153-162 | on any store at all, it closes the address exactly when there was nothing there or the session is readable by token and names that address |
| Interleaving.WholeRevokeByClientIP | internal/auth/session.go:150-162 | the pieces of a revocation by address, uninterrupted, are the atomic operation of the session laws; the same is proved of the other four operations |
| Interleaving.RunConsistent | internal/auth/session.go:65-91 | with every operation split into its reads and its transaction and interleaved at will, every copy of a session anywhere is the one its token was issued for |
| Interleaving.RevocationIsFinal | internal/auth/session.go:133-148 | once the transaction of a revocation that had read the session is in, no entry carries the token and no later lookup by any key returns it |
| Interleaving.RevocationIsFinalIff | internal/auth/session.go:133-148 | for a revocation, in any interleaved run, of a token issued by the time it commits: no lookup after its transaction returns the token exactly when it had read the session or no address led to the token at that moment |
| Interleaving.UnreadRevokeIsNotFinal | internal/auth/session.go:273-286 | having read the session is needed: in one run the revocation that read nothing leaves its session reachable by address |
| Active.TallySumsUp | internal/auth/session.go:201-216 | for any order and any repetition of keys, each token's entry is on the tunnel when any of its keys was an address, and has the least positive time left among them |
| Active.ListingAgrees | internal/auth/session.go:179-229 | the listing has one entry for each token that can be looked up and no other, with that session, on the tunnel exactly when its address leads back to it, and with the time both its keys have left |
| Active.ListingIsLive | internal/auth/session.go:179-229 | where the views agree, a complete scan yields one entry for each token that can be looked up and no other, newest first, with the lookups' session, tunnel mark and time left |
| SessionStore.SessionService.Create | internal/auth/session.go:65-91 | writes the stamped session under both keys, or one if it has no address, and nothing else |
| SessionStore.SessionService.Fetch | internal/auth/session.go:106-127 | finds a session exactly when its key is live and its expiry has not passed; a stored value always decodes |
| SessionStore.SessionService.Revoke | internal/auth/session.go:129-148 | leaves the keyspace the revocation law speaks of, whichever keys were there |
| SessionStore.SessionService.RevokeByClientIP | internal/auth/session.go:150-162 | the same, from the address; no session there is no error |
| SessionStore.SessionService.Disconnected | internal/auth/session.go:255-271 | gives both keys the grace period, or reports that there was nothing to shorten |
| SessionStore.SessionService.Reconnected | internal/auth/session.go:273-286 | gives both keys what is left of the session, or reports that there was none |
| SessionStore.SessionService.Active | internal/auth/session.go:188-229 | lists each entry of the tally of a complete scan exactly once, newest first; where the views agree, exactly the sessions that can be looked up |
| OtpHistory.RequestRefinesHistory | internal/auth/otp.go:85-93 | after any run a code is refused exactly when one was granted in the last minute, or ten were without a day's silence between them |
| OtpHistory.VerifyRefinesHistory | internal/auth/otp.go:118-158 | after any run a guess is accepted exactly when it is the code of the latest granted request, under five minutes old, with fewer than five wrong guesses and no success since; every refusal is as exact |
| OtpHistory.StoreMatchesLog | internal/auth/otp.go:136-148 | in every run the keys of an address hold what its log says, and the attempts counter of a code on offer outlives the code |
| OtpLimits.GuessesArePaidFor | internal/auth/otp.go:107-148 | over any stretch of a run, wrong guesses compared with a live code number at most five for each code granted in it, plus what the code alive before still allowed |
| OtpLimits.GuessBound | internal/auth/otp.go:31-36 | in any stretch shorter than a day one address is granted at most ten codes and at most fifty wrong guesses are compared with a live one, although every grant pushes the counter's expiry back |
| OtpLimits.GrantsAreSpaced | internal/auth/otp.go:85-89 | two granted requests for one address are at least a minute apart |
| OtpInterleaving.WholeGuess | internal/auth/otp.go:124-158 | the pieces of a guess, uninterrupted, are the atomic operation of the code laws |
| OtpInterleaving.GuessIsComparedIff | internal/auth/otp.go:124-148 | interleaved at will, a guess is compared with the latest code exactly when it is read under five minutes after the request and before anything deleted the code; a right one then earns and a wrong one counts |
| OtpInterleaving.SecondGuessEarnsIff | internal/auth/otp.go:124-158 | of two right guesses at one code the second earns a verification too exactly when its read came before the first one's transaction |
| OtpInterleaving.OneCodeEarnsTwice | internal/auth/otp.go:124-158 | a run in which one code earns two attempts |
| OtpInterleaving.SecondExchangeFindsIff | internal/auth/otp.go:183-199 | of two exchanges of one verification the second finds the address too exactly when its read came before the first one's deletion |
| CodeStore.PaddedIsExact | internal/auth/otp.go:60-75 | no two draws give the same code |
| CodeStore.EveryCodeIsDrawn | internal/auth/otp.go:60-75 | every string of that many digits is the code of some draw in range |
| CodeStore.OtpStore.GenerateCode | internal/auth/otp.go:64-75 | the loop's bound is a million and the code is the six digits of the draw |
| CodeStore.OtpStore.Request | internal/auth/otp.go:82-116 | a refusal writes nothing; a grant writes all four keys whether or not the mail is delivered, and a failed delivery is reported |
| CodeStore.OtpStore.Verify | internal/auth/otp.go:124-158 | answers and leaves behind what the code laws speak of, in all four outcomes |
| CodeStore.OtpStore.Exchange | internal/auth/otp.go:183-199 | returns the address the attempt earned and spends it |
| Accounts.CreateTakesNothing | internal/services/user.go:63-102 | an account is made exactly when the address is one and no row has it, deleted or not; then the one new row is active, fresh and filed under the normalised address; every existing row stays as it was |
| Text.SpellingsAgreeIff | internal/services/user.go:230-232 | two spellings are one address exactly when they differ only in case and surrounding white space |
| Accounts.LooksLikeEmailIff | internal/services/user.go:234-239 | an address is accepted exactly when it splits at its first @ into two parts that are not empty, and holds no blank |
| Accounts.DeactivateThenActivate | internal/services/user.go:146-221 | deactivating shuts out that account and no other, and activating gives back the same account |
| UserStore.UserService.IsAuthorised | internal/services/user.go:130-144 | succeeds exactly for a row that exists, is not deleted and is active, and returns it; otherwise says which of these failed |
| UserStore.UserService.CreateUser | internal/services/user.go:63-102 | adds an active account or reports why not, leaving the table as it was |
| UserStore.UserService.DeactivateUser | internal/services/user.go:146-181 | closes the account, then asks for its tunnels to be closed exactly when there is a way to |
| UserStore.UserService.ActivateUser | internal/services/user.go:183-221 | reopens a closed account and leaves an active one untouched |
| Login.StateBindsProvider | internal/auth/service.go:275-278 | a state minted for one provider is accepted for another exactly when they are the same, for names without a bar |
| Login.StateIgnoresClient | internal/auth/service.go:144-147 | a login begun at one address completes from any other within ten minutes, with its session at that other, which is the client the state recorded exactly when they are the same |
| Login.CompleteLeaves | internal/auth/service.go:155-241 | a completed login's session is found under both keys at once; success or not, the state and the verification it used are spent and nobody else's are |
| Login.SilentAnswerIff | internal/auth/service.go:386-429 | an address that may not sign in is answered with silence and changes nothing; one that may is answered so exactly when a code was granted and delivered |
| Login.AskingTwiceTellsThemApart | internal/auth/service.go:386-429 | asked twice in a row, an address that may sign in is told to wait and one that may not is answered with silence |
| System.RunIsASessionRun | internal/auth/service.go:98-111 | every run of the server is, for the session store, a run of that store's own calls |
| System.RunIsACodeRun | internal/auth/service.go:386-438 | every run of the server is, for the code store, a run of that store's own calls |
| System.BookAgrees | internal/auth/session.go:53-63 | in every state the server can reach, the two views of every session agree |
| Conservation.SessionsSpendAttempts | internal/auth/service.go:138-170 | every session a login hands out spends an earlier attempt minted for its provider, and no two spend the same one |
| Conservation.VerificationSpendsCode | internal/auth/otp.go:118-158 | a successful guess used a code sent earlier to that very address |
| Conservation.VerificationsSpendDistinctCodes | internal/auth/otp.go:150-153 | no two successful guesses used the same sent code |
| Conservation.CodeSignInIsEarned | internal/auth/otp.go:183-199 | a session got with a code goes back to one successful guess and on to one code sent, all for the address in the session |
| Conservation.CodeSignInsSpendCodes | internal/auth/otp.go:118-199 | two sessions got with codes used two different guesses and two different codes |
| Conservation.ServerVerifiesByHistory | internal/auth/service.go:431-438 | in any run of the server a guess is judged by the log of what was asked of the code store |
| Conservation.ServerRationsCodes | internal/auth/service.go:386-429 | in any run of the server, at most ten codes and fifty live wrong guesses for one address in less than a day |
| SignIn.LoginSucceedsIff | internal/auth/service.go:155-279 | after any run, told from its operations alone, a login completes exactly when its provider is registered, an attempt begun for that provider under ten minutes ago has not been completed since, somebody is vouched for (by the code provider: whoever gave the right code under two minutes ago, once), the domain is allowed and the account is authorised |
| Gate.FoundByAddress | internal/auth/service.go:466-470 | a session found by address was handed out for that address while its account was authorised, and nothing has ended it since |
| Gate.FoundByToken | internal/auth/service.go:453-456 | a session found by token was handed out while its account was authorised, and nothing has ended it since |
| Gate.ListingInEveryRun | internal/auth/service.go:98-107 | in every reachable state the listing is exactly the sessions that can be looked up, each handed out while authorised and not ended since |
| Gate.AdmissionIsEarned | internal/api/vpnapi/vpn.go:89-200 | whoever is let on holds such a session for that address, within its time, with an active account, under their own certificate or an unnamed one |
| Gate.ClosedAccountsAreShutOut | internal/services/user.go:146-181 | from the moment an account is closed until it is reopened nobody is let on as it, no session is handed out for it and no code is sent to it |
| Gate.RedemptionIsSound | internal/auth/breakglass.go:171-199 | a redeemed link returns exactly the session minted with it, within its life, and no earlier redemption of it ever succeeded |
| Gate.EmergencyIsShort | internal/auth/breakglass.go:96-102 | an emergency session lasts more than nothing and at most two hours |
| Gate.EmergencyEndsOnTime | internal/auth/breakglass.go:143-169 | no disconnect, reconnect, VPN access or anything else makes an emergency session readable past its lifetime |
| Answers.LoginAnswers | internal/auth/service.go:155-241 | after any run a login is answered, from the operations alone, with the first of the five refusals that applies or with the session for the account vouched for |
| Answers.EmergencyAnswers | internal/auth/breakglass.go:86-141 | after any run a request for an emergency session is refused for its reason, its length or its account, in that order, or answered with a session of fifteen minutes or the time asked for |
| Answers.MadeIsTheRows | internal/auth/service.go:186-200 | every session handed out carries the number, address and groups of one active row of the accounts as they then were, the one vouched for or named, and the step's own provider and client address |
| Answers.GateAnswers | internal/api/vpnapi/vpn.go:94-168 | after any run the VPN's question is answered yes exactly when a session stands at the address, the certificate's name is blank or its own, and its account is authorised; each refusal exactly when the first of these fails; and with the session as it was handed out, groups included |
| Answers.RedeemAnswers | internal/auth/breakglass.go:171-199 | after any run a link returns its session exactly when emergency access is enabled, the session was issued with that link, nothing redeemed it since and the session still stands with time left; otherwise there is one refusal |
| Answers.VerifyAnswers | internal/auth/service.go:431-438 | after any run a guess is answered as the log of its address judges it, or with the refusal that code sign-in is not enabled |
| Answers.RequestAnswers | internal/auth/service.go:386-429 | after any run a request for a code is answered with silence for whoever may not sign in, with the limit the log says applies, and otherwise by whether the code was delivered |
| Answers.TokenAnswers | internal/auth/session.go:93-127 | after any run of the server the lookup by token returns s exactly when s was handed out under it and stands by the operations alone |
| Answers.AddressAnswers | internal/auth/session.go:98-127 | the same for the lookup by address |
| Answers.PortalAnswers | internal/web/auth.go:335-349 | after any run the portal sees the session the cookie names while it stands, failing that the one at the address, and nobody else |
| Emergency.BreakGlass.Issue | internal/auth/breakglass.go:86-141 | refuses without a reason, beyond two hours or for an account that may not sign in, writing nothing; otherwise writes the short session and its link |
| Emergency.BreakGlass.Redeem | internal/auth/breakglass.go:171-199 | spends the link it finds even when the session is gone |
| AuthService.Service.Begin | internal/auth/service.go:112-129 | only a registered provider's login can be started |
| AuthService.Service.NewLoginAttempt | internal/auth/service.go:131-153 | records the attempt under a fresh state for ten minutes and nothing else |
| AuthService.Service.SpendState | internal/auth/service.go:261-279 | a state that was there is gone afterwards, accepted or not |
| AuthService.Service.Complete | internal/auth/service.go:155-241 | does, step by step, what the login laws speak of, and asks the person's client to reconnect exactly when that is enabled and the login succeeded |
| AuthService.Service.RequestCode | internal/auth/service.go:386-429 | sends only to an allowed domain and an authorised account |
| AuthService.Service.VerifyCode | internal/auth/service.go:431-438 | does what the code laws speak of when code sign-in is enabled |
| AuthService.Service.RedeemBreakGlass | internal/auth/service.go:372-384 | redeems only where emergency access is enabled |
| AuthService.Service.SignedIn | internal/auth/service.go:458-464 | says whether the address leads to a readable session |
| AuthService.Service.ActiveSessions | internal/auth/service.go:98-107 | lists exactly the sessions that can be looked up, where the views agree |
| AuthService.Service.ClientDisconnected | internal/auth/service.go:477-486 | a client without a session is no error |
| Portal.LogoutClearsBothViews | internal/web/auth.go:265-275 | where the views agree, a logout leaves the caller no session under cookie or address, now or later, even when they named two different ones |
| Portal.LogoutClosesTheAddressIff | internal/web/auth.go:265-275 | the session the address led to is closed under its own token too exactly when the cookie did not name another session for that address |
| Portal.LogoutLeavesTheYounger | internal/web/auth.go:265-275 | of two sessions issued in turn at one address, a logout there with the elder's cookie leaves the younger, found by its token |
| Portal.LogoutInEveryRun | internal/web/auth.go:265-275 | so it is after any run of the server |
| Portal.LogoutNeedsAgreement | internal/auth/session.go:153-162 | where the views disagree a logout can change nothing |
| Portal.LogoutAfterInterleaving | internal/auth/session.go:153-162 | an interleaved run reaches such a store, and a logout leaves whoever is at the address signed in there |
| Portal.AuthHandler.CurrentSession | internal/web/auth.go:335-349 | the cookie's session first, then the address's, then none |
| Portal.AuthHandler.SignOut | internal/web/auth.go:265-275 | ends the cookie's session and then whatever the address leads to |
| VpnApi.Handler.Access | internal/api/vpnapi/vpn.go:89-200 | answers by the gate, restores the session's life only for a client let on, and gives it the routes of its own account's grants: they cover exactly the blocks that account may reach, and each names the resource, the level of access and the group of a grant of that account |
| VpnApi.Handler.Disconnect | internal/api/vpnapi/vpn.go:202-235 | shortens the session and names whose it was before |
| Ipv4.ParseFormat | internal/services/resource.go:179 | a printed address reads back as itself |
| Ipv4.FormatParse | internal/services/resource.go:175-179 | an address that can be read is exactly the text it would be printed as |
| Ipv4.MaskArithmetic | internal/services/resource.go:182-188 | for every address and prefix the mask is contiguous, the network has no host bits, and masking gives that network exactly for the 2^(32-n) addresses from it on |
| Ipv4.InBlockIsSharedPrefix | internal/services/resource.go:156-170 | those addresses are the ones that agree with it on the first n bits |
| Ipv4.SplitCoversBlock | internal/services/resource.go:171-189 | an address is accepted exactly when it names a block, and the network and netmask it is split into cover exactly that block |
| Ipv4.BareAddressCoversItself | internal/services/resource.go:174-180 | a bare address covers itself and no other address |
| Ipv4.SplitIsFixed | internal/services/resource.go:171-189 | splitting the network with its prefix again changes nothing |
| Permissions.AcceptedIsRoutable | internal/services/resource.go:74-84 | an accepted resource is stored trimmed and, if it has an address, that address can be routed |
| Permissions.CreateResourceIff | internal/services/resource.go:57-117 | exactly which requests make a resource, and which one: a name not in use, a known kind, no address or a readable one, and some address for a machine or a database |
| Permissions.MachineIsRoutableIff | internal/services/resource.go:69-84 | an accepted machine can be routed to exactly when the address asked for was not all blanks |
| Permissions.BlankMachineAccepted | internal/services/resource.go:69-84 | a machine with a blank address is accepted with none |
| Permissions.PermissionService.AddGrant | internal/services/permission.go:47-90 | adds exactly the grant the three names mean, and reports exactly why they mean none |
| Permissions.PermissionService.RemoveGrant | internal/services/permission.go:92-125 | removes exactly that grant, or changes nothing and says why |
| Permissions.PermissionOfIff | internal/services/permission.go:38-55 | a text names a level of access exactly when it is that level's name, whatever its case and surrounding blanks |
| Permissions.PermissionService.ResourcesForUser | internal/services/permission.go:164-204 | returns the rows of the join for that account, all of them and no others, ordered by resource, or the error of the account's lookup |
| Permissions.RevokeTakesAwayIff | internal/services/permission.go:92-125 | removing a grant takes a resource from a user exactly when no other grant still leads there |
| Routes.ToRoutes | internal/api/vpnapi/vpn.go:237-278 | the routes are, in order, those of the first grant for each network and netmask, each with that grant's resource name, level of access and group |
| Routes.GrantedResources | internal/api/vpnapi/vpn.go:280-295 | each granted resource is named exactly once, in the order first granted |
| Routes.RoutesCoverGrants | internal/api/vpnapi/vpn.go:237-278 | dropping repeats and unroutable rows loses no address and adds none |
| Routes.RoutesAreDistinct | internal/api/vpnapi/vpn.go:263-267 | no two routes have the same network and netmask |
| Routes.RoutesPreserveMeaning | internal/services/permission.go:164-204 | a user's routes cover exactly the union of the blocks of undeleted resources granted to undeleted groups the user directly belongs to |
| Routes.RoutesComeFromGrants | internal/api/vpnapi/vpn.go:269-275 | each route leads to the block of a resource in the tables and carries that resource's name, the grant's level of access and its group's name |
| Routes.AcceptedIsRouted | internal/api/vpnapi/vpn.go:246-261 | no address accepted when its resource was created is skipped |
| ShellQuote.QuoteReadsAsItself | scripts/installation/providers/dvarpala.go:154-160 | wherever a quoted value stands outside quotes, after words and operators alike, the shell reads exactly the value there |
| ShellQuote.QuoteIsOneWord | scripts/installation/providers/dvarpala.go:154-160 | quoting any string, the empty one included, makes exactly one word of it |
| ShellQuote.CommandLineRoundTrip | scripts/installation/providers/dvarpala.go:154-160 | a list of values, each quoted, reads back as the list |
| ShellQuote.CommandReads | scripts/installation/providers/dvarpala.go:88-112 | any command put together from fixed words, operators and words that end with a quoted value is read token by token, each value exactly as given |
| ShellQuote.InstallReads | scripts/installation/providers/dvarpala.go:106-112 | for every address and host the installer's command is read as the same twelve tokens, the address as the value of one assignment word and the host as one word |
| ShellQuote.InstallText | scripts/installation/providers/dvarpala.go:106-112 | spelled out, those tokens are the installer's format string with the quoted values in it |
| ShellQuote.CloneReads | scripts/installation/providers/dvarpala.go:92-97 | for every branch and repository the clone command, with its redirections and operators, is read as the same tokens, branch and repository as one word each |
| ShellQuote.CloneText | scripts/installation/providers/dvarpala.go:92-97 | spelled out, those tokens are the clone's format string with the quoted values in it |
| Idle.ReapedExactly | internal/vpn/idle.go:93-134 | a sweep closes exactly the listed tunnels with an address, not signed in, that can be closed and are held to have been idle for the timeout |
| Idle.SparedIff | internal/vpn/idle.go:116-119 | an exposed tunnel is spared exactly when its connection time was reported and the second it began in is not yet the timeout ago; one a second short of the timeout, exactly when its connection time was reported |
| Idle.UnreportedTunnelIsClosed | internal/vpn/management.go:95-101 | read from a status line that stops before the connection time, a tunnel that began this very moment is closed, whatever the timeout |
| Idle.AbandonedTunnelIsClosed | internal/vpn/idle.go:52-91 | with ideal ticks a tunnel that never signs in, listed until it is closed, is closed at exactly one of the ticks, less than a second before the timeout is over and less than one interval after it |
| Idle.IdleSweeper.Create | internal/vpn/idle.go:50-65 | there is no sweeper for a timeout that is not positive |
| Idle.IdleSweeper.Sweep | internal/vpn/idle.go:93-134 | the count returned is the number of tunnels closed, and each is reported once with its idle time |
| Mailer.DialWithRetry | internal/auth/mailer.go:170-207 | one to three tries, each given a positive time of at most eight seconds and begun after a pause, all within the budget; the first connection is returned, or else the last try's error |
| Mailer.Send | internal/auth/mailer.go:98-119 | succeeds exactly when the last try connected and the conversation fits the deadline, and is over within twice the budget |
| Management.NoticesAreTransparent | internal/vpn/management.go:182-224 | a reply depends only on its lines that are not notices |
| Management.InsertedNoticesChangeNothing | internal/vpn/management.go:211-213 | notices inserted anywhere leave the reply as it was |
| Management.Command | internal/vpn/management.go:206-223 | collects the reply up to and including the line that ends it |
| Management.Clients | internal/vpn/management.go:68-109 | lists the clients the status reply describes |
| Management.StatusRoundTrip | internal/vpn/management.go:68-109 | a status reply listing any clients, whatever notices arrive among its lines, is read back as exactly those clients |
| Management.MatchingExactly | internal/vpn/management.go:246-250 | the clients acted on are all those with the name, each as often as listed, and no others |
| Management.RestartNamesTheClient | internal/vpn/management.go:253-258 | the command to restart a client names it by its own number, which reads back as that number |
| Management.Reconnect | internal/vpn/management.go:226-265 | one restart for each matching client, in order, up to the first that fails; the count is of those that did not |

## Left out

- Ipv4.SplitCoversBlock: IPv6 text, including IPv4-mapped addresses, is refused here, where the code accepts mapped addresses.
- Text beyond ASCII: trimming, lower-casing and case folding are those of ASCII text.
- Sub-second times and Redis failures: whole seconds and commands that succeed.
- Encoding: sessions are stored as values, so that decoding always gives back what was encoded; a stored value of the wrong shape is ruled out by an invariant rather than handled.
- Audit records, duration formatting and the wording of errors.
- The domain allow-list: its answer is a parameter of the operations that ask it.
- Exchange of providers other than the code provider: what they vouch for is a parameter.
- SQL: tables are maps and sets, and the join of ResourcesForUser is a loop over the grants; the order of rows with the same resource is left open. ListForGroup is the same join for one group.
- Group hierarchy: membership is direct, as in the code.
- SetGroups stands for every change of an account's group names. Those names, which a session carries, and the membership table, which routes are computed from, are two inputs here; in the database the first is read from the second.
- Management.Reconnect: the three-second delay before it and its running in the background are not modelled; a completed login records that it was asked for.
- Kill and KillClient of the management channel: one command each, with no property beyond the reply they wait for.
- The line length limit of the reader behind Command, and connection deadlines of the control channel.
- CreateUser beyond the account table: names, departments and login times.
- The shell beyond quoting and token recognition: expansions, patterns, comments, double quotes and here-documents are outside the lexer, which stops at them; the installer's commands hold none.
- Idle.SparedIff: clocks from 1970 to 2262, where a count of nanoseconds fits Go's durations.
- Cloud installers, command line programs, configuration, HTTP routing, HTML, cookies, certificate signing, and the shell hooks and firewall.
