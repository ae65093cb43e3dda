# A verified model of ldap-kdc

ldap-kdc is a directory server with its own Kerberos KDC, password service, DNS zone and OpenID provider. This
project models the parts of it that decide something over time — which tickets may exist, what a cache or a
limiter may forget, what a file or a PAC must read back as, which identifiers and keys the store may hold — and
proves what they promise, for every input and every run. `dafny verify dfyconfig.toml` checks all of it.

Every component is modelled twice where the source works by changing things: as functions over values, about which
the theorems are proved, and as methods or classes in the source's own form, each proved to compute exactly those
functions.

| modules | source | what is proved |
|---|---|---|
| `Names`, `Tickets`, `Kdc`, `KdcRuns`, `KdcGrants`, `KdcTheorems`, `KdcLimits`, `KdcServer` | `internal/kdc`, `internal/kpasswd` | where FORWARDABLE, PRE-AUTHENT, INITIAL and INVALID come from and what bounds the times of a ticket, in every run of AS, TGS and password steps over a ledger of minted tickets |
| `ReplayCache` | `internal/kdc/replay.go` | the sweeping cache decides as a set that never forgets, exactly when its window is long enough |
| `Bytes`, `Keytab`, `KeytabGrammar` | `internal/krbkeys` | the keytab reader inverts the writer, holes included, exactly for entries in width, and accepts exactly the files of its format; what merging replaces and keeps |
| `Pac`, `PacSigning`, `PacOverlap`, `PacWriter` | `internal/kdc/pac.go` | layout reads back; built PACs verify, and re-signed ones exactly when their signature buffers are apart; what re-signing may touch |
| `IdRange`, `IdStore` | `internal/store/idrange.go` | relative identifiers stay unique and rightful over every run; allocation never fails |
| `Groups` | `internal/store/groups.go`, `users.go` | the two worklists compute the closure and its converse, so membership agrees both ways |
| `Keys`, `KeyStore` | `internal/store/principals.go`, `password.go` | two key generations, how long a key opens what it sealed, one password behind every credential |
| `Lockout` | `internal/store/principals.go` | the failure counter is the current burst, and locks exactly at the limit |
| `Failban` | `internal/failban` | the pruning limiter answers as one that never forgets, exactly when it prunes late enough |
| `DnsNames`, `DockerDns`, `Discovery` | `internal/dockerdns`, `internal/store/dns.go` | two reconciliations settle the zone in every iteration order, exactly when the store keeps its names as asked; administrators' records are left alone |
| `Oidc`, `OidcServer` | `internal/oidc` | one response per code, what stands behind it, and exactly when an exchange is answered |

## Where a promise has a limit

Each of these is a property one would expect, with the exact condition under which the code keeps it.

- *Replay window.* `internal/kdc/server.go:85-87` gives the cache twice the clock skew. The clock is read once for the
  skew check and again in the cache; with readings up to `delay` apart the cache agrees with a perfect memory iff its
  window is at least `2 * skew + delay` (`ReplayCache.AgreesIffWindowCovers`). With the source's window that is `delay == 0`.
- *S4U2Self without trust.* It leads nowhere unless the service is itself a ticket-granting principal; then its ticket
  is a TGT in the user's name (`KdcTheorems.UntrustedEscapesIffTgs`).
- *Empty tickets.* The check for a non-empty window runs before the clamp to the source ticket, so a TGT used during the
  skew after its end buys a ticket whose window is empty (`KdcTheorems.DerivedWindow`, `KdcTheorems.DelegatedWindow`,
  `KdcTheorems.EmptyWindowInTheSkew`).
- *Chains without end.* The renew-until time is not clamped at all (`internal/kdc/tgs.go:745-748`). A TGT that is not even
  renewable buys, at its very end, a renewable one that can be renewed beyond it, and so on: a chain outlives the AS
  ticket it starts from by any amount iff the client may renew (`KdcLimits.UnboundedIffRenewable`).
- *Early password changes.* The password service looks at neither INVALID nor the start time. A client can change its
  password with a ticket that is not valid yet iff its rules let it postdate (`KdcLimits.EarlyChangeIffPostdate`).
- *Password tickets straight from an AS exchange.* They are, unless the password service also answers to a
  ticket-granting name: then a validated ticket, still INITIAL, changes a password (`KdcLimits.DerivedChangeIffTgs`).
- *Re-signing.* The code does not look at where the two signature buffers lie. The result verifies under every checksum
  function with the same types and lengths iff the buffers are apart (`PacOverlap.VerifiesIffApart`); on a PAC whose two
  descriptors share a buffer it does not (`PacOverlap.SharedBufferFails`).
- *Checking the KDC signature.* `internal/kdc/pac.go:156` slices by the length of the checksum and panics iff that runs past
  the PAC (read from a slice with nothing behind it), which a buffer with room for the checksum rules out (`PacSigning.PanicsIff`).
- *Keytab numbers.* They come back unchanged iff they fit the format's widths (`Keytab.RoundTripIffInWidth`).
- *Failed-attempt limiter.* Pruning loses nothing iff a silent source is kept for the window, to the last tick
  (`Failban.AgreesIffPruneCoversWindow`).
- *Names in the zone.* The comment at `internal/dockerdns/dockerdns.go:434-435` says a registration never shares a name with an
  administrator's record. It can, when the administrator's came later: a pass leaves such a registration alone
  (`DockerDns.SharedNameIsLeft`, `DockerDns.SharesIff`, `DockerDns.LaterRecordShares`).
- *Zones that settle.* What is wanted is compared under the name asked for, and the store normalizes names once more. From
  the third reconciliation on nothing changes iff the zone is one the store keeps, neither empty nor ending in a dot or
  a space (`Discovery.SettlesIffUsable`). Under any other zone a registration is made and removed in turn, for ever
  (`DockerDns.NeverSettles`, `Discovery.EmptyZoneAlternates`).

## Assumptions

- A sealed ticket cannot be forged: what is presented, as TGT, evidence or to the password service, is in the ledger.
  The name it is presented under is the presenter's choice, and it opens only with that principal's key. A ticket that
  another realm minted names a client of another realm and is sealed for a ticket-granting principal.
- The clock never goes back, and a request reads it once. The replay cache and the OpenID provider are modelled with
  the readings their requests make. Kerberos times are whole seconds, and zero is the unset time.
- A name keeps leading to the same principal; everything else about a principal may change at any point of a run, except
  where a theorem asks for the rules to be fixed (`KdcRuns.RulesFixed`).
- Realms are compared in upper case, as the code stores them. Names fold case as ASCII text.
- Checksums, string-to-key, the PKCE hash, address parsing and record validation are parameters. Digests that only serve
  as map keys are replaced by what they digest. A service checks a PAC signature with the enctype its type field names;
  where it matters, no two checksum types lead to one enctype and no checksum is empty (`PacSigning.Crypto.Exact`).
- Docker lists each container once, and container ids and addresses hold no `|`.
- The unique indexes of the schema hold: POSIX ids within a kind, a RID, an owner's RID, principal names, one key per
  principal, version and enctype, and one DNS record per name, type and value. A store write is one step that applies or
  is rolled back as a whole; a whole OpenID request, and a whole reconciliation pass, is one step too.

## Model

| member | source | states |
|---|---|---|
| `Tickets.EffectiveLife` | internal/kdc/ticket.go:192-206 | the life is the smallest of the realm's limit and the positive limits of client and server |
| `Tickets.TimesFor` | internal/kdc/ticket.go:113-178 | a window that is granted is not empty, starts now or at the postdate asked for, keeps within the effective life, and is renewable only where client and service allow it, past its end and no further than asked |
| `KdcGrants.TimesExact` | internal/kdc/ticket.go:113-178 | the end and the renew-until time exactly, RENEWABLE-OK included |
| `KdcServer.ShortestLife` | internal/kdc/ticket.go:192-206 | the loop over the limits computes the effective life |
| `KdcServer.ComputeTimes` | internal/kdc/ticket.go:113-178 | filling the times step by step gives the times of the specification, refusals included |
| `KdcServer.TicketFlags` | internal/kdc/ticket.go:211-242 | setting bits in place gives the flags of the specification |
| `KdcServer.ScanList` | internal/kdc/tgs.go:1247-1260 | the scan finds a name iff some entry names it |
| `Names.EntryNames` | internal/kdc/tgs.go:1247-1260 | an entry with a realm names one whole name up to case, one without names a principal in any realm |
| `KdcServer.FindTimestamp` | internal/kdc/as.go:229-237 | the scan finds the first encrypted timestamp |
| `KdcServer.Server.IssueTicket` | internal/kdc/tgs.go:719-787 | policy, times, clamp, flags and authentication time as specified, in that order of refusal |
| `KdcServer.Server.DecideTicket` | internal/kdc/tgs.go:735-787 | the ticket decided once both principals are usable |
| `KdcServer.Server.IssueS4U2Self` | internal/kdc/tgs.go:341-416 | the S4U2Self branch refuses and mints as specified |
| `KdcServer.Server.IssueS4U2Proxy` | internal/kdc/tgs.go:440-561 | the S4U2Proxy branch refuses and mints as specified |
| `KdcServer.Server.RenewTicket` | internal/kdc/tgs.go:565-625 | renewal refuses and mints as specified |
| `KdcServer.Server.HandleTgsReq` | internal/kdc/tgs.go:53-103 | the dispatch keeps the ledger lawful and appends exactly the ticket of the specification |
| `KdcServer.Server.HandleAsReq` | internal/kdc/as.go:31-214 | the AS exchange keeps the ledger lawful, appends exactly the ticket of the specification, and records the same result |
| `KdcServer.Server.ServeInitial` | internal/kdc/as.go:83-119 | status, expiry, enctype and pre-authentication in the source's order |
| `KdcServer.Server.MintInitial` | internal/kdc/as.go:121-214 | the initial ticket |
| `KdcRuns.IssueFacts` | internal/kdc/tgs.go:719-787 | what every issued ticket inherits from its source, and what it cannot have |
| `KdcRuns.ServiceMints` | internal/kdc/tgs.go:287-337 | a service ticket is lawful: from a usable TGT, not INITIAL, inheriting client, pre-authentication and end |
| `KdcRuns.S4U2SelfMints` | internal/kdc/tgs.go:341-416 | an S4U2Self ticket is lawful: asked for in a verified request, sealed for the requester itself, for a client its list allows, never pre-authenticated, never forwardable without trust |
| `KdcRuns.S4U2ProxyMints` | internal/kdc/tgs.go:440-561 | a delegated ticket is lawful: from forwardable, valid evidence sealed for the requester, whose client and times it inherits, and for a target on the requester's list |
| `KdcRuns.RenewMints` | internal/kdc/tgs.go:565-625 | a renewal changes times and INITIAL only, within the renew-until time |
| `KdcRuns.ValidateMints` | internal/kdc/tgs.go:628-677 | a validation clears INVALID and changes nothing else |
| `KdcRuns.TgsMints` | internal/kdc/tgs.go:53-103 | every TGS answer is lawful under every combination of options |
| `KdcRuns.AsMints` | internal/kdc/as.go:31-214 | every AS answer is lawful |
| `KdcRuns.StepKeepsInv` | internal/kdc/tgs.go:53-103 | every step keeps every ticket lawful and every password change justified |
| `KdcRuns.RunInv` | internal/kdc/server.go:277-302 | the invariant holds in every run |
| `KdcRuns.MintedBy` | internal/kdc/server.go:277-302 | every ticket was minted by an event of the run, answering from what the ledger and the directory held then |
| `KdcRuns.RunRuled` | internal/kdc/tgs.go:719-787 | while rules are fixed, every ticket keeps to its principals' rules |
| `KdcGrants.AsGrants` | internal/kdc/as.go:31-214 | an AS ticket is granted only to principals in use, with the pre-authentication the realm or the client demands, an unexpired password unless it is to change it, and flags and times that are asked for and allowed |
| `KdcGrants.PreAuthRequiredIff` | internal/kdc/as.go:239-258 | without a timestamp an otherwise acceptable request is refused for want of one iff the realm or the client requires it |
| `KdcGrants.RecordedIff` | internal/kdc/as.go:260-302 | a timestamp counts as a failure iff the named key does not open it to a timestamp, as a success iff it is also within the skew |
| `KdcGrants.TgsGrants` | internal/kdc/tgs.go:53-103 | a TGS ticket rests on an authentic TGT, the step its options call for, principals in use, trust for another realm, and exactly the flags asked for and allowed |
| `KdcGrants.SelfServedIff` | internal/kdc/tgs.go:341-416 | exactly when protocol transition is answered, the list of those a service may act for included |
| `KdcGrants.ProxyServedIff` | internal/kdc/tgs.go:440-561 | exactly when delegation is answered |
| `KdcGrants.RemoteClientIsHeldTo` | internal/kdc/tgs.go:1035-1062 | a client of another realm is held to the service's and the realm's rules and may not postdate |
| `KdcGrants.PasswordIff` | internal/kpasswd/server.go:278-391 | exactly when a password change is applied, and to whom |
| `KdcGrants.EveryTicketWasGranted` | internal/kdc/server.go:277-302 | every ticket of every run was granted on a request of that run, as above |
| `KdcGrants.EveryChangeWasAsked` | internal/kpasswd/server.go:237-391 | every password change of every run answers a password request of it |
| `KdcGrants.RealmDemandsPreAuth` | internal/kdc/as.go:239-258 | where the realm requires pre-authentication, every AS ticket of a run carries PRE-AUTHENT |
| `KdcTheorems.RootKeepsClient` | internal/kdc/tgs.go:287-787 | a derivation keeps its client and starts at an AS exchange, an S4U2Self or another realm |
| `KdcTheorems.ForwardableOnlyIfAllowed` | internal/kdc/tgs.go:750-763 | every FORWARDABLE ticket of a local client belongs to one that may have it, in every run |
| `KdcTheorems.BarredIsNeverDelegated` | internal/kdc/tgs.go:497-553 | a client barred from forwarding is never the subject of a delegated ticket |
| `KdcTheorems.DelegationIsConstrained` | internal/kdc/tgs.go:440-561 | every delegated ticket of a run rests on a request by the principal its evidence is sealed for, which then listed the target and might act for the client |
| `KdcTheorems.DelegationFollowsTheRules` | internal/kdc/tgs.go:1247-1260 | with fixed rules every delegated ticket is for a service its evidence's holder may delegate to |
| `KdcTheorems.SelfByEvent` | internal/kdc/tgs.go:341-397 | every S4U2Self ticket was asked for, in a verified request, by the service it is sealed for, for a client its list allows, and is marked trusted iff that service then held OKToAuthAsDelegate |
| `KdcTheorems.SelfFollowsTheRules` | internal/kdc/tgs.go:420-436 | with fixed rules no S4U2Self ticket is for a client off its service's list |
| `KdcTheorems.UntrustedS4U2SelfLeadsNowhere` | internal/kdc/tgs.go:366-397 | no later step of any run accepts what an untrusted service got from S4U2Self |
| `KdcTheorems.ForwardableComesFromConsentOrTrust` | internal/kdc/tgs.go:464-502 | every FORWARDABLE ticket of a local client traces to an AS request of the run granted to that client, or to a verified S4U2Self request whose service then held OKToAuthAsDelegate and might act for it |
| `KdcTheorems.UntrustedEscapesIffTgs` | internal/kdc/tgs.go:394-415 | an untrusted S4U2Self ticket can become FORWARDABLE iff it is sealed for a ticket-granting principal |
| `KdcTheorems.PreAuthentComesFromVerifiedTimestamp` | internal/kdc/tgs.go:1217-1233 | PRE-AUTHENT iff the root is a verified AS exchange: an AS request of the run whose first timestamp verified at that instant, which is the authentication time |
| `KdcTheorems.AsExchangeVerifies` | internal/kdc/as.go:221-302 | a ticket is marked pre-authenticated, and a success recorded, iff the first timestamp opens and is within the skew |
| `KdcTheorems.LockedOutEvaluatesNothing` | internal/kdc/as.go:83-118 | while locked out the answer does not depend on the pre-authentication, and nothing is recorded |
| `KdcTheorems.InvalidIsNeverASource` | internal/kdc/tgs.go:86-100 | no ticket is issued from an INVALID one, and none is used before its start less the skew |
| `KdcTheorems.UsablePostdatedWasValidated` | internal/kdc/tgs.go:628-657 | a usable POSTDATED ticket went through a validation once its start had come |
| `KdcTheorems.RenewalsKeepTheirLimit` | internal/kdc/tgs.go:573-624 | chains of renewals and validations keep client, service, authentication and renew-until time, and end by it |
| `KdcTheorems.LifeIsBounded` | internal/kdc/ticket.go:113-206 | with fixed rules no ticket of this KDC lives longer than client, service and realm allow |
| `KdcTheorems.DerivedNeverOutlives` | internal/kdc/tgs.go:745-748 | nothing issued from a ticket, through any number of steps, outlives it |
| `KdcTheorems.PasswordChangesRestOnAsExchange` | internal/kpasswd/server.go:293-386 | every password change applied goes to the client of a ticket for the password service that an AS exchange minted, or that validations made of one when the service is also ticket-granting |
| `KdcTheorems.DerivedWindow` | internal/kdc/tgs.go:735-748 | a service ticket has a window iff its start lies before the end of its source |
| `KdcTheorems.DelegatedWindow` | internal/kdc/tgs.go:735-748 | the same for a delegated ticket and its evidence |
| `KdcTheorems.EmptyWindowInTheSkew` | internal/kdc/tgs.go:270-283 | a TGT just past its end is accepted and buys an empty window |
| `KdcLimits.EarlyChange` | internal/kpasswd/server.go:312-334 | a run in which an INVALID ticket changes the password however far away its start is |
| `KdcLimits.EarlyChangeIffPostdate` | internal/kpasswd/server.go:312-334 | a client can change its password with an INVALID ticket iff it may postdate |
| `KdcLimits.ValidatedChange` | internal/kdc/tgs.go:656-657 | a run in which a validated ticket, still INITIAL, changes a password |
| `KdcLimits.DerivedChangeIffTgs` | internal/kpasswd/server.go:293-319 | some change rests on a ticket no AS exchange minted iff the password service answers to a ticket-granting name |
| `KdcLimits.EndsByRoot` | internal/kdc/tgs.go:573-624 | without renewal by rule, nothing derived outlives the ticket its derivation starts from |
| `KdcLimits.UnboundedIffRenewable` | internal/kdc/tgs.go:745-748 | a chain of purchases and renewals outlives its AS ticket by any amount iff the client may renew |
| `ReplayCache.RunAgrees` | internal/kdc/replay.go:33-64 | with a covering window the cache takes the decisions of a set that never forgets |
| `ReplayCache.AgreesIffWindowCovers` | internal/kdc/server.go:85-87 | agreement on every run iff the window covers twice the skew and the delay |
| `ReplayCache.LateReplayIsAccepted` | internal/kdc/replay.go:33-64 | the run that a shorter window lets through |
| `ReplayCache.NoAuthenticatorTwice` | internal/kdc/tgs.go:181-190 | with the source's window and one reading no authenticator is accepted twice |
| `ReplayCache.EntriesAreRecent` | internal/kdc/replay.go:68-80 | after a call no entry is older than a window and a quarter |
| `ReplayCache.EntriesAreAcceptances` | internal/kdc/replay.go:33-64 | an entry holds the instant its authenticator was accepted, which refusing it does not renew |
| `ReplayCache.Replay.Sweep` | internal/kdc/replay.go:68-80 | the deleting loop leaves exactly the entries inside the window |
| `ReplayCache.Replay.Note` | internal/kdc/replay.go:33-64 | answers and records as specified |
| `ReplayCache.Replay.Accept` | internal/kdc/tgs.go:181-190 | the skew check, then the cache |
| `Keytab.EntryReadsBack` | internal/krbkeys/keytab_read.go:62-117 | parsing what the writer writes for an entry gives the entry, cut to the format's widths |
| `Keytab.LayoutReadsBack` | internal/krbkeys/keytab_read.go:19-60 | a file with arbitrary holes between entries reads as its entries |
| `Keytab.MarshalReadsBack` | internal/krbkeys/keytab.go:30-100 | writing and reading any acceptable list gives what the file keeps of each entry, in order |
| `Keytab.RoundTripIffInWidth` | internal/krbkeys/keytab.go:44-89 | the list comes back unchanged, up to salts, iff every number fits its width |
| `Keytab.MergeTwiceIsMergeOnce` | internal/krbkeys/keytab_read.go:136-150 | merging the same entries twice is merging once |
| `Keytab.IdIff` | internal/krbkeys/keytab_read.go:152-155 | two entries have one identity iff name text, key version and enctype are equal |
| `Keytab.MergeReplacesById` | internal/krbkeys/keytab_read.go:136-155 | of each name, version and enctype the merge holds the added entries, or the existing ones in order where none was added |
| `Keytab.MergeKeepsOrder` | internal/krbkeys/keytab_read.go:136-150 | an existing entry is dropped iff one of the same name, version and enctype is added; the others keep their order and the added ones follow |
| `KeytabGrammar.EntryIff` | internal/krbkeys/keytab_read.go:62-131 | some bytes are read as an entry iff they are that entry's bytes, field by field |
| `KeytabGrammar.ParseIff` | internal/krbkeys/keytab_read.go:19-60 | entries are read from exactly the empty file and the files of a version and sized records and holes, in order |
| `KeytabGrammar.BodyIs` | internal/krbkeys/keytab.go:44-89 | what the writer writes, the name type and both key versions included |
| `KeytabGrammar.RefusedIff` | internal/krbkeys/keytab.go:44-100 | the writer refuses exactly entries without a name, with too many components or with a part too long |
| `Keytab.WriteEntry` | internal/krbkeys/keytab.go:44-100 | the buffer writer produces the specified bytes or the first objection |
| `Keytab.MarshalKeytab` | internal/krbkeys/keytab.go:30-42 | the whole file, or the first error |
| `Keytab.ParseKeytab` | internal/krbkeys/keytab_read.go:19-60 | the loop over any bytes returns what the recursive parser does |
| `Keytab.MergeKeytab` | internal/krbkeys/keytab_read.go:136-150 | the map and slice compute the merge |
| `Pac.AssembledReadsBack` | internal/kdc/pac.go:316-345 | each buffer is aligned, in bounds, past the table, clear of the others, and is read back through its descriptor |
| `PacSigning.BuiltVerifies` | internal/kdc/pac.go:61-116 | a built PAC verifies under both signatures and the types they name, the server's over the PAC with both values zeroed |
| `PacSigning.ResignedKeepsContents` | internal/kdc/pac.go:166-227 | re-signing changes no byte outside the two signature buffers |
| `PacSigning.ResignedIff` | internal/kdc/pac.go:166-205 | a PAC is re-signed iff its table and buffers lie inside it and its signature buffers have the size of the new ones |
| `PacSigning.ResignedVerifies` | internal/kdc/pac.go:166-227 | a re-signed PAC verifies, types included, when its signature buffers stand apart |
| `PacOverlap.VerifiesIffApart` | internal/kdc/pac.go:166-227 | both signatures verify under every checksum function of these types and lengths iff the buffers are apart |
| `PacOverlap.SharedBufferFails` | internal/kdc/pac.go:166-227 | a PAC with one buffer for both signatures is re-signed and does not verify |
| `PacSigning.PanicsIff` | internal/kdc/pac.go:146-158 | the check panics iff the named checksum does not fit between the start of the value and the end of the PAC |
| `PacWriter.AssemblePac` | internal/kdc/pac.go:316-345 | the loops over the byte buffer produce the layout and its offsets |
| `PacWriter.BuildPac` | internal/kdc/pac.go:61-116 | layout and both signatures written in place as specified |
| `PacWriter.FindSignatures` | internal/kdc/pac.go:126-144 | accepts iff every descriptor is in bounds and both signatures are there, and finds the last of each |
| `PacWriter.ResignPac` | internal/kdc/pac.go:166-227 | refuses and rewrites as specified |
| `PacWriter.VerifyKdcSignature` | internal/kdc/pac.go:120-161 | accepts iff the KDC signature verifies, and panics as stated |
| `IdRange.OneIsFree` | internal/store/idrange.go:189-217 | at most one of the two RIDs an id maps to is taken by others |
| `IdRange.AllocateSucceeds` | internal/store/idrange.go:189-217 | an in-range id without a RID always gets one: its place in the primary interval, or in the secondary one iff an object of the other kind with the same id holds the first; no other RID moves |
| `IdRange.ApplyKeepsInv` | internal/store/users.go:221-344 | create, renumber, delete and backfill keep the invariant, leave other objects' RIDs, and succeed iff the visible conditions hold |
| `IdRange.ApplyDoes` | internal/store/users.go:221-344 | the row each operation leaves, and a RID exactly for an id in the range |
| `IdRange.RunKeepsInv` | internal/store/idrange.go:189-312 | in every run RIDs are unique, rightful and in [1000, 2^32) |
| `IdRange.SecondaryOnlyIfTaken` | internal/store/idrange.go:189-235 | in every run an object with its secondary RID was given it while the other kind held the primary |
| `IdRange.BackfillCompletes` | internal/store/idrange.go:260-312 | a backfill in any order gives every in-range object its RID |
| `IdStore.ValidateRange` | internal/store/idrange.go:51-87 | accepts exactly the valid ranges |
| `IdStore.Store.AllocateRid` | internal/store/idrange.go:189-217 | primary, else secondary, as specified |
| `IdStore.Store.ReleaseRid` | internal/store/idrange.go:220-225 | the owner is left without a RID, every other RID stays with its holder, and none is added |
| `IdStore.Store.CreateObject` | internal/store/groups.go:119-156 | keeps the invariant; the new tables are the specification's |
| `IdStore.Store.RenumberObject` | internal/store/users.go:257-315 | the same for a change of id |
| `IdStore.Store.DeleteObject` | internal/store/groups.go:215-253 | the same for a deletion |
| `IdStore.Store.BackfillKind` | internal/store/idrange.go:260-312 | one kind complete, existing RIDs untouched |
| `IdStore.Store.BackfillAll` | internal/store/idrange.go:260-312 | both kinds complete, existing RIDs untouched |
| `Groups.ReachesConverse` | internal/store/groups.go:312-368 | reaching along the reversed edges is the converse |
| `Groups.MembershipAgrees` | internal/store/users.go:438-475 | a user's groups contain a group iff the group's members contain the user |
| `Groups.Close` | internal/store/groups.go:257-308 | the worklist ends and holds exactly what the seeds reach, on any graph |
| `Groups.ExpandGroup` | internal/store/groups.go:257-308 | exactly the groups reachable from one |
| `Groups.UserGids` | internal/store/users.go:438-442 | exactly the groups the user belongs to |
| `Groups.GroupMembers` | internal/store/users.go:445-475 | exactly the users that belong |
| `Keys.RunKeepsInv` | internal/store/principals.go:203-427 | in every run stored versions are the current and previous one, and the current one has keys |
| `Keys.OpensForOneRekey` | internal/store/principals.go:360-396 | the version counts re-keys; old keys load unchanged after one re-key and are gone after two |
| `Keys.RekeyStamps` | internal/store/principals.go:379-392 | every re-key dates the password |
| `Keys.CreateIff` | internal/store/principals.go:203-263 | exactly when a principal is created |
| `Keys.CreateNames` | internal/store/principals.go:203-263 | its name and aliases lead to it, every other name where it did |
| `Keys.CreateDoes` | internal/store/principals.go:203-263 | its keys are its current version, the first unless told otherwise, and nobody else changes |
| `Keys.OtherWrites` | internal/store/principals.go:267-333 | what removing, linking and clearing do |
| `Keys.RunKeepsNames` | internal/store/principals.go:132-168 | in every run a name keeps leading to the same principal while that is there |
| `Keys.DerivedIff` | internal/krbkeys/keys.go:98-124 | keys are derived iff every enctype can be, one each in order |
| `Keys.TakesIff` | internal/store/principals.go:398-427 | a password gives a principal keys iff the enctypes are some, distinct and known |
| `Keys.UserPasswordReachesAll` | internal/store/password.go:60-108 | digest and every linked principal come from the new password, one generation on, unlocked and dated, and nothing else changes |
| `Keys.SetsInStep` | internal/store/password.go:60-108 | every password change of a user, by either route, leaves its credentials in step |
| `Keys.StaysInStep` | internal/store/password.go:56-108 | they stay in step through every run without a write to one of them alone |
| `Keys.KpasswdParts` | internal/kpasswd/server.go:407-434 | a kpasswd change parts no user's credentials and keys the requester from the new password |
| `Keys.KpasswdIff` | internal/kpasswd/server.go:394-434 | exactly when a kpasswd change succeeds |
| `KeyStore.DeriveKeys` | internal/krbkeys/keys.go:104-124 | the loop derives as specified |
| `KeyStore.OneMore` | internal/store/password.go:86-104 | re-keying principals one by one is re-keying them all at once, in any order |
| `KeyStore.Store.WriteKeys` | internal/store/principals.go:398-427 | replaces one version, and fails iff there are no keys or two of one enctype |
| `KeyStore.Store.RollKeys` | internal/store/principals.go:360-396 | next version written, old generations dropped, counters reset |
| `KeyStore.Store.SetKeys` | internal/store/principals.go:337-355 | applies or leaves the tables as they were |
| `KeyStore.Store.SetPrincipalPassword` | internal/store/password.go:112-127 | salts with the canonical name whichever name was used |
| `KeyStore.Store.RekeyAll` | internal/store/password.go:86-104 | the loop over linked principals succeeds iff all of them take the keys |
| `KeyStore.Store.RekeyOne` | internal/store/password.go:86-104 | one turn of that loop |
| `KeyStore.Store.SetUserPassword` | internal/store/password.go:60-108 | atomic: all credentials, or nothing |
| `KeyStore.Store.CreatePrincipal` | internal/store/principals.go:203-263 | first version, free names, or nothing |
| `KeyStore.Store.ApplyPassword` | internal/kpasswd/server.go:394-434 | policy, then both credentials or the one there is |
| `Lockout.CountIsBurst` | internal/store/principals.go:445-489 | the counter is the longest current run of failures with no reset and no gap over the interval |
| `Lockout.LocksExactlyAtLimit` | internal/store/principals.go:445-489 | a failure locks iff that run has reached the limit, until the stored second |
| `Lockout.Row.RecordAuthResult` | internal/store/principals.go:445-489 | the row is updated as specified |
| `Failban.RunAnswers` | internal/failban/failban.go:48-67 | pruning late enough, every answer is the history's |
| `Failban.BlockStartsIff` | internal/failban/failban.go:71-103 | a failure starts a block iff those since the last success or block and inside the window reach the threshold |
| `Failban.AgreesIffPruneCoversWindow` | internal/failban/failban.go:121-133 | agreement on every history iff sources are kept for the window |
| `Failban.KeepRecent` | internal/failban/failban.go:71-103 | filtering the slice in place leaves exactly the recent failures at its front, in order |
| `Failban.Table.Prune` | internal/failban/failban.go:121-133 | the loop drops exactly the stale sources |
| `Failban.Table.Blocked` | internal/failban/failban.go:48-67 | answers and updates as specified |
| `Failban.Table.NoteFailure` | internal/failban/failban.go:71-103 | updates as specified |
| `Failban.Table.NoteSuccess` | internal/failban/failban.go:106-118 | updates as specified |
| `DockerDns.IdentityIsUnique` | internal/dockerdns/dockerdns.go:352-354 | the identity text determines origin, name and address |
| `DockerDns.BumpedIsLeast` | internal/store/dns.go:295-303 | the next serial is the least past the old one and no earlier than the time |
| `DockerDns.AdministratorsAreLeft` | internal/dockerdns/dockerdns.go:358-449 | a pass keeps every record that is not a registration and adds none at an administrator's name |
| `DockerDns.OnlyWantedAreLeft` | internal/dockerdns/dockerdns.go:418-431 | after a pass every registration is wanted or just added as the table keeps it |
| `DockerDns.SettledIffNoneWaits` | internal/dockerdns/dockerdns.go:358-432 | with names kept as asked, one pass settles the zone iff no wanted record's slot holds a stale registration |
| `DockerDns.TwoPassesSettle` | internal/dockerdns/dockerdns.go:358-432 | with names kept as asked, after two passes in any order a third changes nothing, the serial included |
| `DockerDns.NeverSettles` | internal/dockerdns/dockerdns.go:352-432 | with names kept otherwise, every pass of every run changes the zone |
| `DockerDns.SettledRegistersTheWanted` | internal/dockerdns/dockerdns.go:358-432 | in a settled zone a wanted record is registered unless its name or slot is another's |
| `DockerDns.SharedNameIsLeft` | internal/dockerdns/dockerdns.go:434-449 | a wanted registration at an administrator's name is registered after iff before |
| `DockerDns.SharesIff` | internal/dockerdns/dockerdns.go:434-449 | a pass leaves a shared name iff a wanted registration shared it before |
| `DockerDns.LaterRecordShares` | internal/dockerdns/dockerdns.go:434-449 | a zone in which a name stays shared |
| `DnsNames.StoredIffUsable` | internal/store/dns.go:31-33 | a container's name is stored unchanged iff the zone is non-empty and ends in no dot or space |
| `Discovery.DesiredIsUnique` | internal/dockerdns/dockerdns.go:298-334 | a listing calls for one set of records whatever the iteration order |
| `Discovery.CalledIff` | internal/dockerdns/dockerdns.go:298-349 | exactly when a network of a container calls for a record, and for which |
| `Discovery.TwoReconciliationsSettle` | internal/dockerdns/dockerdns.go:358-432 | under such a zone, with the listing unchanged, the third reconciliation and every later one change nothing |
| `Discovery.SettlesIffUsable` | internal/dockerdns/dockerdns.go:298-432 | the third and later reconciliations change nothing iff the zone is such a one; under another every one changes the zone |
| `Discovery.EmptyZoneAlternates` | internal/dockerdns/dockerdns.go:84-432 | under an empty zone a container is registered and removed in turn |
| `Discovery.DesiredIsAcceptable` | internal/store/dns.go:121-138 | the table takes every desired record |
| `Discovery.AddContainer` | internal/dockerdns/dockerdns.go:301-330 | one container adds exactly what its networks call for |
| `Discovery.Desired` | internal/dockerdns/dockerdns.go:298-334 | exactly the records the containers call for, by identity |
| `Discovery.Discoverer.CreateRegistration` | internal/store/dns.go:152-183 | inserts under the normalized name and raises the serial iff the record is acceptable and the slot free |
| `Discovery.Discoverer.DeleteRecord` | internal/store/dns.go:187-205 | removes an administrator's record and never a registration |
| `Discovery.Discoverer.DeleteRegistration` | internal/store/dns.go:209-244 | removes a registration and never an administrator's record |
| `Discovery.Discoverer.Held` | internal/dockerdns/dockerdns.go:377-380 | the map of registrations by identity is one to one |
| `Discovery.Discoverer.CreateMissing` | internal/dockerdns/dockerdns.go:382-416 | adds what is addable, blocks what an administrator holds, for any order |
| `Discovery.Discoverer.DeleteGone` | internal/dockerdns/dockerdns.go:418-431 | removes exactly the held registrations that are not wanted |
| `Discovery.Discoverer.Reconcile` | internal/dockerdns/dockerdns.go:358-432 | for any order of its loops the result is a pass over the desired records |
| `Oidc.OnlyRegisteredIsServed` | internal/oidc/authorize.go:92-128 | whatever is redirected or asked is for a registered client and one of its own redirects, and was asked for as a code with S256 |
| `Oidc.CodeIsBacked` | internal/oidc/authorize.go:89-277 | a code is for a registered client and redirect, answers such a request, and names who signed in, in the session of that request's cookie or through its form, while that sign-in was good |
| `Oidc.SilentIff` | internal/oidc/session.go:65-106 | a code is given without asking iff the history says the cookie's session is still good: the sweeping table decides as one that never forgets |
| `Oidc.AskedIff` | internal/oidc/authorize.go:92-161 | a request in order is otherwise sent to the form, unless it forbids asking |
| `Oidc.SignsInIff` | internal/oidc/authorize.go:176-215 | a form signs in iff the credential is granted and its request still waits, in time and unused |
| `Oidc.TablesAreSwept` | internal/oidc/code.go:39-57 | right after an addition a table holds nothing past its time |
| `Oidc.SilentOnlyWhileFresh` | internal/oidc/session.go:65-106 | a code without a form rests on a session used within the idle time, and never against prompt=login |
| `Oidc.OutstandingIsStored` | internal/oidc/code.go:39-57 | the sweep removes no code that could still be exchanged |
| `Oidc.SpentIsGone` | internal/oidc/code.go:62-77 | a code presented once by an authentic client never comes back |
| `Oidc.AnsweredIff` | internal/oidc/token.go:44-91 | exactly when an exchange is answered, in terms of the history alone |
| `Oidc.OneResponsePerCode` | internal/oidc/code.go:59-77 | two responses for one code are one exchange |
| `Oidc.ResponseIsBacked` | internal/oidc/token.go:44-119 | the response goes to a client that presented its secret, for a registered redirect, and matches challenge and nonce of one request and subject and instant of the sign-in tied to it, which is recent enough |
| `Oidc.EndedIsGone` | internal/oidc/session.go:90-98 | a session signed out of never yields a code again |
| `OidcServer.Provider.SweepSessions` | internal/oidc/session.go:110-116 | the loop drops exactly the expired sessions |
| `OidcServer.Provider.StartSession` | internal/oidc/session.go:48-62 | records the sign-in and sweeps |
| `OidcServer.Provider.GetSession` | internal/oidc/session.go:65-87 | returns and touches a live session, drops an expired one |
| `OidcServer.Provider.IssueCode` | internal/oidc/code.go:39-57 | sweeps, then stores the code |
| `OidcServer.Provider.TakeCode` | internal/oidc/code.go:62-77 | removes the code whatever the answer |
| `OidcServer.Provider.PutPending` | internal/oidc/authorize.go:43-61 | sweeps, then stores the request |
| `OidcServer.Provider.HandleAuthorize` | internal/oidc/authorize.go:89-162 | tables and answer as specified |
| `OidcServer.Provider.HandleLogin` | internal/oidc/authorize.go:176-215 | tables and answer as specified |
| `OidcServer.Provider.HandleToken` | internal/oidc/token.go:44-125 | tables and answer as specified |
| `OidcServer.Provider.HandleLogout` | internal/oidc/endpoints.go:101-103 | drops the session of the cookie |

## Left out

- Sockets, framing, HTTP routing, cookies' attributes, TLS, logging, metrics, configuration files and command-line tools.
- ASN.1, NDR, AES, HMAC, bcrypt, TOTP and JWT encoding: they appear as parameters or as opaque values.
- SQL text, dialects and transaction retry; each write is one step on finite maps.
- PAC contents, transited-path text, and how a host name selects a realm: the ticket model keeps client, service, times
  and flags, and takes those decisions as part of the request.
- Changes to account names, to aliases after creation, and to the child rows of a user (`writeUserChildren`).
- Escapes in principal names, and case folding outside ASCII.
- The order in which sets of groups and members are sorted for output.
- LDAP entries, DNS answers, SASL, Vault enrollment, trusts' administration, the REST interface and the console.
- The client-credentials grant and the userinfo endpoint of the OpenID provider.
- Aliasing of session objects between the table and a request in progress: sessions are values here.
- Interleavings inside one request or one reconciliation pass.
- Keys.StaysInStep: says which writes cannot part a user's credentials; it does not say that each of the others does.
- KdcTheorems.LifeIsBounded: covers tickets of this KDC's own making, because a ticket of another realm carries its own times.
- PacOverlap.VerifiesIffApart: speaks of PACs whose signatures lie past the descriptor table; one that overlaps the table is re-signed without a claim.
- KdcTheorems.ForwardableComesFromConsentOrTrust: asks that untrusted S4U2Self services are not ticket-granting ones; KdcTheorems.UntrustedEscapesIffTgs shows why.
- ReplayCache.NoAuthenticatorTwice: is stated for one clock reading a call; ReplayCache.AgreesIffWindowCovers has the general case.
