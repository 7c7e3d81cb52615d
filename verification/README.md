# Verification model of an overlay VPN's membership, paths, names and pairing

The program is a peer-to-peer VPN. Each node keeps an append-only list of signed membership records
(grants and revocations), replays it into the current membership, tracks the transport paths to
its peers, publishes the members' names in a private DNS zone, and joins networks by pairing. This
project models that logic in Dafny and proves what its documentation promises of it: every node
that holds the same records computes the same membership whatever order they arrived in, revoked
members do not come back under the same version, every active member is reached from a trust
anchor by a chain of grants, and the views built on top (trust paths, proofs, zones, path
selection, pairing) keep the properties their callers rely on.

## How it is organised

- `Records`, `Versions`, `Ledger`, `Replay`: the records, the version check, the ledger as a state
  machine with the steps *tick*, *admit* and *revoke*, and the replay. The imperative replay is
  proved equal to a functional one, and the functional one is proved to be a legal run of the
  machine, so an invariant proved once per step holds of every evaluation.
- `Safety`, `Authority`, `Conservation`, `History`: the invariants of every run and what follows
  from them about one evaluation and about evaluations at different times.
- `Confluence`, `Commutation`, `Convergence`: independence of the order of events, inside one second
  and over the whole list.
- `Anchors`, `TrustPath`, `Proof`, `Merge`, `Singles`, `Transfer`, `Chronology`, `Resignation`: trust anchors, the
  walk to an anchor, the proof worklist, the merge of received records, handing a whole list to a new
  replica, and what revocations do to anchors and to other members.
- `Effective`, `Deadline`, `Refresh`: the projected membership, how long it stays current and which records that
  become due change it.
- `Connections`, `Paths`, `PathViews`, `Selection`, `Upserts`, `PathSet`: the eight-slot connection arrays, the
  path set as a value, each operation seen from one path, the selection-change reports, the operations
  that report nothing, and the mutable class.
- `Hostnames`, `Equivocation`, `DnsNames`, `Claims`, `ReverseRecords`, `Zone`, `Determinacy`, `SharedRoute`, `Pairing`:
  replicated hostname claims, names and the zone with its reverse index, and the application of a pairing
  response.
- `Prelude`, `Net`, `Sorting`: shared definitions.

## Modelling decisions

- Peers and signatures are integers: all that is used of them is equality and a total order. A
  record's `verify` is the payload rules plus a parameter `signed`.
- An event carries its record and its list position. The accepted indices and the map of authorizers,
  which have the same keys, are one list in order of acceptance.
- `sort_unstable_by` promises a sorted permutation and nothing about ties, so `IsEvaluation` holds of the
  result for every sorted permutation, and the theorems are about all of them.
- A `&mut` parameter that is only overwritten on success is an argument and a result; the path set,
  whose methods update it field by field, is a class.
- Hash-map iteration is a loop that takes any remaining key. Where the outcome depends on the order, it is the
  fold over some visiting order: the reverse index is `Via(order)`.

## Where the code does less than one might expect

Each of these has a lemma at a concrete input and a lemma with the exact condition.

- The equal-version conflict check compares a record only with the newest one seen so far for its
  (issuer, member) pair (`src/membership.rs:518-529`), so its verdict can depend on the order of the list:
  `CheckDependsOnOrder`; exactly when, `PassesInEveryOrder` and `FailsInEveryOrder`. Only this check depends on
  the order: the documentation's promise of one result regardless of arrival order
  (`docs/user/membership.md:138`) holds of the evaluation for every list of records with different
  signatures (`LedgerConverges`, `SignedRecordsAreTieless`).
- A grant without the overlay role deactivates its member (`src/membership.rs:727`), so two grants of one
  second need not commute: `RoleWithdrawalBreaksConfluence`; exactly when for two grants, `GrantsCommuteExactly`;
  for any number it suffices that no withdrawal is about a member that issues, or is the subject of, another
  of them (`ScanOrderIrrelevant`).
- A merge can store a revocation dated before a grant that its member has already issued. A new replica then
  refuses the whole list: `BackdatedRevocationBlocksTransfer`; exactly when a list can be handed over,
  `TransferIsExact`. A list that grew in order of issue always can: `OrderlyListTransfers`.
- A node takes its anchors anew from the stored list before each merge (`src/runtime/forward.rs:571-593`), and a
  self-issued revocation makes its issuer one (`src/membership.rs:376-384`). So a resignation can do more than
  "removes only the resigning member" (`docs/user/membership.md:185`): in a list without a self-issued record it
  can shut the other members out (`ResignationRemovesOthers`), and in one with it, it lets a backdated grant of
  the resigned member in (`ResignationMakesAnAnchor`). Exactly when a merge leaves the anchors alone:
  `MergeKeepsAnchors`. If it does, a revocation newer than the list changes no member but its own:
  `RevocationRemovesOnlyItsMember`.
- The zone's own refresh deadline looks only at expiry times (`src/dns.rs:489-493`), so by itself it misses a
  stored grant that becomes due: `PendingGrantHasNoDeadline`; exactly when an evaluation stays what it is
  before the deadline, `DeadlineIsExact`, and when the membership does although records take effect,
  `HiddenRecordsKeepMembership` and, for one record exactly, `OneDueRecord`. The node rebuilds the zone all the same, because the window in which
  it keeps a membership also ends at issue times (`src/runtime/forward.rs:229-248`): `WindowIsSound` and
  `ZoneStaysInWindow` need no condition on the records.
- A zone is determined by its inputs except for reverse lookups of an address that two named peers share,
  whose target depends on hash-map order (`src/dns.rs:675-683`): `SharedRouteExists` and
  `SharedRouteHasTwoTargets`; exactly when, `ZoneIsDetermined`.
- A hostname equivocation is noticed only against the highest claim of its peer (`src/hostname.rs:109-120`), so
  acceptance depends on the order of arrival: `ArrivalOrderMatters`; exactly when, `ClaimsPassInEveryOrder` and
  `ClaimsFailInEveryOrder`. Repeating a merge fails when the stored list is longer than the history limit:
  `RepeatedMergeCanFail`; exactly when, `HostnameMergeIsIdempotent`, which also shows that the node's own
  capacity never gets there.
- Some path-set operations break the agreement between a path and its connection inventory, or change the
  selection without a report: `UnconfirmedDisagrees` and `ForgettingIsSilent`; exactly when,
  `AgreementKeptExactly`, `SilentOperations` and `UpsertIsSilent`.

## Model

| member | source | states |
|---|---|---|
| `Records.ValidatePayload` | src/membership.rs:1073-1118 | a record passes exactly when version, network, integer ranges, hostname and lifetime are in order and a revocation carries nothing while a grant has a role |
| `Records.OutranksIsStrictOrder` | src/membership.rs:734-757 | precedence by epoch, sequence, revocation, issuer and signature is a strict weak order |
| `Records.EventOrderTies` | src/membership.rs:664-685 | two records tie in the replay order exactly when they share issuer, member, version, issue time, kind and signature |
| `Records.SignedRecordsAreTieless` | src/membership.rs:664-685 | records that pass their checks never tie, provided one signature signs one record |
| `Versions.LatestRecords` | src/membership.rs:509-535 | the loop with its conflict error is the fold `Latest` |
| `Versions.LatestIsLatest` | src/membership.rs:509-535 | each pair's entry is a newest record of that pair, for every pair that occurs |
| `Versions.PassesInEveryOrder` | src/membership.rs:518-529 | the check passes in every order of a list exactly when no two different records share a version |
| `Versions.FailsInEveryOrder` | src/membership.rs:518-529 | the check fails in every order exactly when two different records share a pair's newest version |
| `Versions.CheckDependsOnOrder` | src/membership.rs:518-529 | three records that fail in one order and pass in another |
| `Ledger.WinsIsPrecedence` | src/membership.rs:734-757 | a record replaces the current one exactly when it outranks it, or, for a grant to an inactive member, when its epoch is larger |
| `Replay.CollectIssued` | src/membership.rs:573-575 | the events issued by `now`, with their positions |
| `Replay.RetainPass` | src/membership.rs:590-634 | one `retain` pass is `Scan`, and it reports progress exactly when it dropped an event |
| `Replay.AdmitGrants` | src/membership.rs:590-634 | the `while` loop of passes terminates and is `GrantPhase` |
| `Replay.ApplyRevocations` | src/membership.rs:636-657 | the loop over authorized revocations is `RevocationPhase` |
| `Replay.ReplayOrdered` | src/membership.rs:577-659 | the loop over groups of one issue second is `ReplayFrom` |
| `Replay.EvaluateLedger` | src/membership.rs:567-662 | the version conflict, or the evaluation of the list at `now` |
| `Replay.EvaluationIsRun` | src/membership.rs:567-662 | every evaluation is reached by a legal run of the ledger machine |
| `Safety.StepKeeps` | src/membership.rs:598-657 | every legal step keeps the ledger invariant and moves each member only to a higher-ranking record, to active only by a larger epoch |
| `Safety.RunKeeps` | src/membership.rs:567-662 | the same over every legal run |
| `Safety.EvaluationSound` | src/membership.rs:567-662 | every evaluation satisfies the ledger invariant: acceptance in time order with justified authorizers, states backed by accepted events, provenance of active members, buried revocations |
| `Conservation.GrantPhaseConserves` | src/membership.rs:590-634 | accepted and left-over grants are together the grants that came in |
| `Conservation.AcceptedOnceFromList` | src/membership.rs:567-662 | accepted events are entries of the list issued by `now`, each accepted at most once |
| `Authority.AuthorizedWhenAccepted` | src/membership.rs:600-604 | the issuer of an accepted event is an anchor about whom nothing was accepted, or a peer whose highest-ranking accepted record is an admission unexpired at the event's issue time; a revocation is judged without the other revocations of its second |
| `Authority.ActiveRecordIsHighest` | src/membership.rs:712-757 | no accepted record about a member has a larger epoch than its stored one, and none outranks it while the member is active |
| `Authority.UnanchoredPeersStayOut` | src/membership.rs:687-710 | peers outside the anchors who are admitted only by one another never get an event accepted and never are active, whatever cycles they form |
| `History.NoResurrection` | src/membership.rs:712-773 | after an accepted revocation its member is finally inactive at no older a version, or holds a record of a strictly larger version |
| `History.ActiveMemberProvenance` | src/membership.rs:611-630 | an active member has stored first and current admissions, in time order with its record, the current one the first or of a larger epoch |
| `History.ReplaySplits` | src/membership.rs:577-659 | a replay can be cut between two seconds |
| `History.LaterEvaluationAdvances` | src/membership.rs:567-662 | an evaluation at a later time extends the earlier one: its log is a prefix and no member moves backwards |
| `History.AcceptedSince` | src/membership.rs:567-662 | what a later evaluation accepts in addition was issued after the earlier time |
| `Anchors.TrustAnchors` | src/membership.rs:370-392 | the history error, or the self-issuers, or all issuers if there are none |
| `TrustPath.ChainDelegates` | src/membership.rs:775-809 | following authorizers from an accepted grant ends at an anchor; each grant on the way is issued by the previous one's subject and not earlier |
| `TrustPath.WalkBack` | src/membership.rs:790-808 | the walk with its visited set never meets an event twice, so its cycle error is unreachable, and returns that chain |
| `TrustPath.OverlayTrustPath` | src/membership.rs:775-809 | the history error, no path for an inactive member, or the chain |
| `TrustPath.TrustPathDelegates` | src/membership.rs:775-809 | a returned path is a chain of stored, issued admissions from an anchor to the member |
| `Proof.Gather` | src/membership.rs:825-846 | the worklist terminates and yields the least set that contains the start and is closed under authorizer and current record of the subject |
| `Proof.OverlayMembershipProof` | src/membership.rs:811-855 | the history error, nothing for an inactive member, or that set as a list without duplicates in replay order |
| `Proof.ProofHoldsTrustPath` | src/membership.rs:811-855 | every event of a proof was accepted and the proof contains the member's whole trust path |
| `Proof.ProofsConverge` | src/membership.rs:811-855 | for every permutation of a list without ties, a member's proof is missing in both or carries the same records in the same order |
| `Confluence.AcceptedIsLeastFixpoint` | src/membership.rs:590-634 | the grants accepted in one second are the least set closed under "issuer active or anchor", if no withdrawal is about a member that issues, or is the subject of, another grant |
| `Confluence.GrantsAreConfluent` | src/membership.rs:590-634 | under the same condition any two maximal orders of acceptance accept the same grants and leave every member with the same record and active flag |
| `Confluence.GrantPhaseIsMaximal` | src/membership.rs:590-634 | the multi-pass loop is such a maximal order |
| `Confluence.ScanOrderIrrelevant` | src/membership.rs:590-634 | permuting the grants of such a second with unique versions changes neither the accepted set nor the states |
| `Confluence.RoleWithdrawalBreaksConfluence` | src/membership.rs:712-732 | two grants of one second, one withdrawing the overlay role of the other's issuer, after a delegation has been replayed: one order accepts both, the other one |
| `Commutation.GrantsCommuteExactly` | src/membership.rs:590-634 | two grants of one second have the same outcome in both orders exactly when neither is an effective withdrawal of the other's issuer, or of its member at the same epoch and a lower rank |
| `Confluence.RevocationsAreConfluent` | src/membership.rs:636-657 | permuting the revocations of a second changes neither what is accepted nor the states |
| `Confluence.RevocationIsSimultaneous` | src/membership.rs:636-657 | a revocation whose issuer is active after the grants takes effect even if another one removes its issuer |
| `Confluence.MutualRevocation` | src/membership.rs:636-657 | two active members who revoke each other in one second both end inactive |
| `Convergence.LedgerConverges` | src/membership.rs:567-685 | for every permutation of a list without ties, whatever versions conflict in it, and at every time, the accepted records, each member's record and active flag and both admissions are the same |
| `Convergence.AnchorsConverge` | src/membership.rs:370-392 | the anchors do not depend on the order of the list |
| `Convergence.TrustPathsConverge` | src/membership.rs:775-809 | nor do the trust paths |
| `Merge.AppendNew` | src/membership.rs:270-297 | the loop over incoming records is `Absorb`, and accepted and ignored add up to the records received |
| `Merge.MergeRecords` | src/membership.rs:247-321 | the merge with each of its checks and errors in order, the first unaccepted record naming the untrusted issuer |
| `Merge.MergeIsAtomicAppend` | src/membership.rs:247-321 | an error leaves the list unchanged; success appends, stays within the capacity, keeps version uniqueness and counts what it appended |
| `Merge.MergeAppendsAccepted` | src/membership.rs:306-317 | every appended record is accepted by an evaluation at the clock-skew horizon |
| `Merge.MergeIsIdempotent` | src/membership.rs:247-321 | repeating a merge, at any time and with any larger capacity, accepts nothing and changes nothing |
| `Merge.RunKeepsUnique` | src/membership.rs:247-321 | any sequence of merges, failed ones included, keeps the list version-unique and duplicate-free and only appends |
| `Merge.ReplicasConverge` | docs/user/membership.md:138 | two nodes that merged any batches in any order and hold the same set of records have the same anchors and the same membership at every time |
| `Transfer.TransferIsExact` | src/membership.rs:247-321 | an empty replica takes over a whole list exactly when it fits, is not ahead of the clock by more than the skew, and the ledger accepts every record of it; otherwise it takes over nothing |
| `Transfer.BackdatedRevocationBlocksTransfer` | src/membership.rs:306-317 | four records that merge one delivery after the other and that a new replica refuses together |
| `Chronology.MergeStaysOrderly` | src/membership.rs:247-321 | a merge under fixed roots that appends only records issued after everything stored keeps a list of which the ledger accepts every record |
| `Chronology.OrderlyListTransfers` | src/membership.rs:247-321 | a list built by such merges is taken over whole by an empty replica exactly when it fits and is not ahead of the clock by more than the skew |
| `Resignation.MergeKeepsAnchors` | src/runtime/forward.rs:571-593 | a merge under the list's own anchors (any roots, if the list is empty) leaves them alone exactly when every appended resignation is an anchor's, or, in a list without self-issued records, every appended issuer is an anchor, or the appended self-issuers are all the anchors |
| `Resignation.NewestRevocationIsLocal` | src/membership.rs:636-657 | under fixed roots a revocation newer than the list is refused without a trace or accepted last, and then changes the state of its member only; it is accepted if its issuer is active without it |
| `Resignation.RevocationRemovesOnlyItsMember` | docs/user/membership.md:182-185 | if the anchors stay, every member but the one a newest revocation or resignation names keeps its state |
| `Resignation.ResignationRemovesOthers` | src/membership.rs:376-384 | an anchor admits two members, one resigns and becomes the only anchor, and the other is active in no evaluation any more |
| `Resignation.ResignationMakesAnAnchor` | src/membership.rs:376-384 | a grant dated before its issuer's admission is refused before the issuer resigns and merged, with effect, after |
| `Effective.EffectiveMembershipAt` | src/membership.rs:394-439 | the history error, or the projection of an evaluation |
| `Effective.EffectiveConverges` | src/membership.rs:394-439 | the effective membership, with inviters and admission times, does not depend on the order of the list |
| `Deadline.NextRefresh` | src/dns.rs:489-493 | the deadline is the smallest stored expiry after `now` |
| `Deadline.RefreshStays` | src/dns.rs:489-493 | the deadline does not change before it is reached |
| `Deadline.DeadlineIsExact` | src/dns.rs:489-493 | before the deadline a later evaluation equals the one made now exactly when the states known now allow none of the records that become due, and has the same states, hence membership, exactly when none of them would take effect |
| `Refresh.HiddenRecordsKeepMembership` | src/dns.rs:489-493 | before the deadline the effective membership stays if every due record that would take effect leaves an inactive member inactive |
| `Refresh.OneDueRecord` | src/dns.rs:489-493 | if one record becomes due, it stays exactly when the record does not take effect, leaves an inactive member inactive, or renews an active one with the same version, roles, routes and hostname |
| `Deadline.DeadlineIsSound` | src/dns.rs:489-493 | with no record becoming due, the possible evaluations before the deadline are those of now |
| `Deadline.NextTransition` | src/runtime/forward.rs:229-244 | the end of a membership's window is the smallest issue or expiry time after its evaluation |
| `Deadline.WindowIsSound` | src/runtime/forward.rs:76-82 | at every time the window contains, evaluations and effective membership are those at its start, with no condition on the records |
| `Deadline.PendingGrantHasNoDeadline` | src/dns.rs:489-493 | two records with no deadline whose second makes a member active later |
| `Hostnames.CanonicalRecords` | src/hostname.rs:173-198 | the newest claim per peer in peer order, or the equivocation error |
| `Hostnames.MergeOne` | src/hostname.rs:102-132 | one incoming claim: append, replace a lower sequence, ignore a known or older one, or fail on equivocation or capacity |
| `Hostnames.MergeHostnames` | src/hostname.rs:93-137 | the whole merge with its errors, counters and atomic overwrite |
| `Hostnames.ListingIsUnique` | src/hostname.rs:190-197 | a set of winning claims has one peer-sorted list |
| `Hostnames.HostnamesConverge` | src/hostname.rs:93-137 | any two runs of merges that absorbed the same claims, in any batches and order, failed deliveries included, end in the same list: the unique claim of largest sequence per peer, sorted by peer |
| `Hostnames.HostnameMergeIsIdempotent` | src/hostname.rs:93-137 | repeating a merge changes nothing, and succeeds, ignoring everything, exactly when the list is within the history limit, which a capacity within that limit guarantees |
| `Equivocation.ClaimsPassInEveryOrder` | src/hostname.rs:173-198 | a list of claims is accepted in every order exactly when no peer gave one number to two different claims |
| `Equivocation.ClaimsFailInEveryOrder` | src/hostname.rs:173-198 | it is refused in every order exactly when two different claims share the highest number of their peer |
| `Equivocation.ArrivalIsCanonical` | src/hostname.rs:104-132 | valid claims merged one at a time into an empty list with room are all accepted exactly when the list of them is |
| `Equivocation.RivalsNeedTheHigherNumber` | src/hostname.rs:109-120 | two different valid claims of one number are not both merged if they arrive first, and are if a higher number of their peer arrives before them |
| `Equivocation.ArrivalOrderMatters` | src/hostname.rs:109-120 | three claims of which one order of arrival is merged and another is not |
| `Equivocation.RepeatedMergeCanFail` | src/hostname.rs:139-146 | with a capacity above the limit, a merge whose repetition fails |
| `Connections.FlattenFill` | src/path.rs:170-180 | eight packed slots hold a sequence of at most eight ids |
| `Connections.CompactWithout` | src/path.rs:186-196 | the copying loop leaves the ids without the given one, packed |
| `Connections.RecordConnectionId` | src/path.rs:182-206 | the array becomes: remove the id, drop the oldest if full, append; without an id it is unchanged |
| `Connections.ForgetConnectionId` | src/path.rs:208-230 | the array becomes: remove the id; the result says whether it was tracked |
| `Connections.TrackedAreOpen` | src/path.rs:182-230 | after any events the tracked ids are distinct open connections in order of last establishment |
| `Connections.TracksExactlyOpen` | src/path.rs:182-230 | while never more than eight are open they are all open connections |
| `PathViews.OperationActsOnItsPath` | src/path.rs:325-797 | seen from one path, an operation changes that path's candidate and ids as `EntryAfter` says and no other path's |
| `PathViews.AgreementKeptExactly` | src/path.rs:507-709 | an operation keeps "healthy exactly when ids are tracked, count equals their number, latest id is the last" exactly under `KeepsAgreement`, a condition on the operation and the path before it |
| `Upserts.UnconfirmedDisagrees` | src/path.rs:582-625 | a run of one operation after which path and inventory disagree |
| `PathViews.AgreementOverRuns` | src/path.rs:507-709 | it holds over every run whose events on the path carry connection ids, whatever happens on other paths |
| `PathViews.InventoryFollowsConnections` | src/path.rs:340-389 | over every such run, resets counting as closing all connections of the path, the tracked ids are those its connection events leave |
| `PathViews.ConnectionsAreCounted` | src/path.rs:507-709 | over every such run, while at most eight of its connections were ever open at once, a path's ids are the open connections by last establishment, it is healthy exactly when one is open and its count is their number |
| `PathViews.OperationKeeps` | src/path.rs:325-797 | every operation keeps candidate and inventory keys unique and inventories packed and duplicate-free |
| `PathViews.RunKeeps` | src/path.rs:325-797 | so does every run |
| `Selection.BestIsMaximum` | src/path.rs:403-417 | the best path is an eligible candidate of maximal score, the last of equals, and missing exactly when none is eligible |
| `Selection.OnlyOwnPeerReselects` | src/path.rs:507-830 | an operation on one peer's path does not change another peer's selection, and an MTU change none |
| `Selection.SelectionLogIsExact` | src/path.rs:815-830 | over every run of reporting operations, replaying the reported changes gives the kind and relay of every peer's best path |
| `Selection.SilentOperations` | src/path.rs:430-449 | forgetting a peer or invalidating all connections leaves the log exact precisely when the peer, or every peer, had no best path |
| `Upserts.UpsertIsSilent` | src/path.rs:325-338 | storing a candidate leaves the log exact precisely when it would be selected exactly if the one it replaces was, with the same relay, and a new path would not be |
| `Upserts.ForgettingIsSilent` | src/path.rs:430-434 | a run of two operations after which a listener believes in a path that is gone |
| `PathSets.PathSet.constructor` | src/path.rs:316-323 | a new path set has no candidates and no inventories |
| `PathSets.PathSet.BestSupportedFor` | src/path.rs:403-417 | the loop computes `BestSupported` |
| `PathSets.PathSet.ChangeSince` | src/path.rs:815-830 | a change is reported exactly when kind or relay of the best path differ |
| `PathSets.PathSet.Upsert` | src/path.rs:325-338 | refines the value-level operation and keeps the class invariant |
| `PathSets.PathSet.RecordConnectionInventory` | src/path.rs:340-364 | the inventory of one path, created if absent, records the id; the counts returned are those of the new array |
| `PathSets.PathSet.ForgetConnectionInventory` | src/path.rs:366-379 | the inventory of one path forgets the id; reports whether it was tracked |
| `PathSets.PathSet.ClearConnectionInventory` | src/path.rs:381-389 | removes the inventory of one path |
| `PathSets.PathSet.RecordEstablished` | src/path.rs:507-563 | refines the value-level operation, reports the selection change exactly, keeps the invariant |
| `PathSets.PathSet.RecordUnconfirmed` | src/path.rs:582-625 | the same for an unconfirmed path |
| `PathSets.PathSet.RecordConnectionLost` | src/path.rs:661-709 | the same for a lost connection, with remaining count, latest id and health of the path after it |
| `PathSets.PathSet.MarkPathUnhealthy` | src/path.rs:455-477 | the same for a demoted path |
| `PathSets.PathSet.RecordRtt` | src/path.rs:779-797 | the same for a round-trip time |
| `PathSets.PathSet.RecordStreamRtt` | src/path.rs:761-777 | the same for a round-trip time of one connection, ignored unless it is tracked |
| `PathSets.PathSet.LowerPathMtu` | src/path.rs:715-734 | the same for a smaller MTU; reports a change exactly when the state changed |
| `PathSets.PathSet.RaisePathMtu` | src/path.rs:736-750 | the same for a larger MTU below a ceiling |
| `PathSets.PathSet.ForgetPeerPaths` | src/path.rs:430-434 | drops exactly the peer's candidates and inventories |
| `PathSets.PathSet.InvalidateConnections` | src/path.rs:437-449 | resets every candidate and inventory and counts the live ones |
| `Net.CanonicalLabelIdempotent` | src/dns.rs:104-125 | the canonical labels are exactly those that canonicalization returns unchanged |
| `DnsNames.Search` | src/dns.rs:535-550 | binary search over sorted names finds a key exactly when it is there |
| `DnsNames.FqdnIsInjective` | src/dns.rs:135-138 | different labels have different full names |
| `DnsNames.FqdnIsCanonical` | src/dns.rs:707-713 | the full name of a canonical label is in the form that lookups compare |
| `DnsNames.ReverseNameIsInjective` | src/dns.rs:688-705 | different addresses of either family have different reverse names (section 3.5 of RFC 1035, section 2.5 of RFC 3596) |
| `Claims.EffectivePeerNames` | src/dns.rs:177-253 | the loops collect exactly the claims of the local peer, authorized configured peers and overlay members, a hostname record replacing all friendly names of its peer, each as often as it is made, sorted by label, transport identity and source |
| `Claims.ClaimedOften` | src/dns.rs:177-253 | a claim is collected at least once exactly when it is one of those |
| `Claims.NamesAreDetermined` | src/dns.rs:246-251 | the list is determined by its inputs if different peers have different transport identities |
| `Claims.InsertNames` | src/dns.rs:404-411 | the table holds owners and sources of every label, or the error of the first invalid label in order |
| `Claims.GatherAddresses` | src/dns.rs:388-428 | exactly the owners of names get addresses: built-in, configured, and the host routes of signed grants |
| `Claims.CountAddresses` | src/dns.rs:430-450 | passes exactly when every peer and the total are within their limits, and otherwise names the limit broken and the count |
| `Zone.IndexNames` | src/dns.rs:452-479 | every label becomes one record of its only owner or one conflict of all its owners |
| `ReverseRecords.PreferRecords` | src/dns.rs:663-672 | the loop picks, for every peer with a record, the first friendly one in name order, or the first if it has none |
| `ReverseRecords.PreferredIsUnique` | src/dns.rs:663-672 | a peer has one such record |
| `ReverseRecords.AddReverse` | src/dns.rs:676-683 | visiting a record gives all its addresses its name and changes no other entry |
| `ReverseRecords.BuildReverse` | src/dns.rs:662-685 | the index is `Via(order)` for an order that visits each such record once |
| `ReverseRecords.LastVisitedDecides` | src/dns.rs:674-683 | an address has an entry exactly when a visited record has it, and the last such record is its target |
| `ReverseRecords.ReverseIsSound` | src/dns.rs:662-685 | every entry names a preferred record that owns the address |
| `ReverseRecords.ReverseIsComplete` | src/dns.rs:662-685 | if the records of a peer carry the same addresses, no address of a record is missing |
| `ReverseRecords.SameOwnersSameTarget` | src/dns.rs:674-683 | addresses owned by the same preferred records have the same target |
| `ReverseRecords.VisitLast` | src/dns.rs:674-683 | each preferred owner of an address is its target in some visiting order |
| `ReverseRecords.SharedAddressIsAmbiguous` | src/dns.rs:674-683 | if records of two peers share an address, another visiting order gives another index |
| `Zone.BuildZone` | src/dns.rs:366-504 | the build succeeds exactly when configuration, names and limits allow it, with the records and conflicts of the names and the index of some visiting order; otherwise it reports the first check that fails |
| `Zone.LookupRecord` | src/dns.rs:543-550 | a record lookup finds the record with the canonical name exactly when there is one |
| `Zone.LookupConflict` | src/dns.rs:535-541 | the same for conflicts |
| `Zone.EveryNameIsIndexedOnce` | src/dns.rs:452-488 | every claimed name answers with its claimant or is a conflict of at least two owners including it, never both |
| `Zone.ReverseLookupOwnsAddress` | src/dns.rs:557-564 | a reverse lookup finds exactly the addresses of records, and returns a preferred record that owns the address |
| `Zone.InactiveMemberHasNoNames` | src/dns.rs:177-253 | a revoked, expired or withdrawn member other than the local one owns no record and is in no conflict |
| `Determinacy.ZonesAgree` | src/dns.rs:366-504 | two builds from the same inputs agree on records, conflicts and reverse names, and on everything if no two named peers share an address |
| `Determinacy.ZoneIsDetermined` | src/dns.rs:366-504 | a zone is the only one its inputs can give exactly when no two named peers share an address |
| `Determinacy.AnyOwnerMayAnswer` | src/dns.rs:674-683 | each named owner of an address is the answer to its reverse lookup in a zone of some visiting order |
| `SharedRoute.SharedRouteIsBuildable` | src/dns.rs:366-504 | a configuration and a membership with two members granted one host route: the zone can be built, and two named peers share the address |
| `SharedRoute.SharedRouteExists` | src/dns.rs:366-504 | such inputs written out, with their labels |
| `SharedRoute.SharedRouteHasTwoTargets` | src/dns.rs:674-683 | from these inputs one visiting order answers the shared address with the one member and another with the other |
| `Determinacy.ZoneStaysCurrent` | src/dns.rs:404-493 | before the deadline, and with no stored record becoming due, a later build agrees with an earlier one as above and has the same deadline |
| `Determinacy.ZoneStaysInWindow` | src/runtime/forward.rs:76-82 | at every time the window of a membership contains, the zone agrees with the one built at its start |
| `Pairing.AddRecords` | src/pairing.rs:874-894 | the upsert loop is `UpsertRecords` |
| `Pairing.PassingPayload` | src/pairing.rs:984-1062 | a passing payload has only verified records, none ahead of the clock or expired; without a shared key the joiner is admitted; by code approval it has one root that delegates to the inviter, and the inviter's newest record about the joiner admits it and backs its address |
| `Pairing.ValidatedResponseHasOneRoot` | src/pairing.rs:675-733 | a validated code-approval response has exactly one self-issuing peer, and the inviter's trust path starts at its self-issued grant |
| `Pairing.PairingIsIdempotent` | src/pairing.rs:621-673 | applying a response again to the resulting configuration, at any time at which the response is still valid, succeeds and changes nothing |
| `Pairing.PairingExtendsRecords` | src/pairing.rs:621-673 | a successful application appends exactly the response's new records, keeps version uniqueness, and, by code approval into a configuration with a root, comes from one of the roots already there |

## Left out

- Signatures, public keys, base64, JSON and their size limits, and peer identities as hashes: parameters or equality on integers.
- Pairing codes, key agreement and the signed offer, request and response formats: the response's envelope and signature checks are parameters of `Pairing`.
- Checkpoint authority: kept as a boolean of the membership and of a response.
- Parsing of addresses, routes, labels in configuration files and multiaddresses: configurations are already parsed, so their parse errors do not occur.
- Runtime validation of a configuration: a parameter.
- Audit views, metrics, network-peer snapshots, record issuing and configuration import: projections and constructors that would only add easy members.
- The merge counters for removed records, which the program always reports as zero.
- `candidates_for`, `peer_ids`, `effective_mtu` and the bare constructors of path candidates: one-line views.
- The 16-bit width of round-trip times and MTUs, and saturation of address counts: these are unbounded naturals. Penalties and connection counts saturate as in the program.
- The guard zone for the reserved suffix and the fail-closed copy of a zone: constants.
- Transport peer strings of names and records: a parameter that only breaks ties among equal labels.
- GrantsAreConfluent: sufficient only. The exact condition is proved for two grants, by `GrantsCommuteExactly`.
- HiddenRecordsKeepMembership: sufficient only, because of several records that become due one can undo what another shows. The exact condition is proved for one record, by `OneDueRecord`.
- ProofHoldsTrustPath: says nothing about evaluating a proof on its own, where dropped renewals can change expiry.
