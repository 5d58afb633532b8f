# Designate: models and proofs

Dafny models of the stateful parts of Designate, a control plane for DNS, and proofs about them. Each module
follows one component; methods carry the loops and the state of the code, functions say what they compute, and
lemmas state what holds over all inputs, runs and interleavings.

| module | what it models |
|---|---|
| ZoneStatus | edits stamp zones and records with action, status and serial; workers report serials back in any order |
| ZoneFate | what becomes of a zone and its records over whole runs of edits and reports |
| AxfrPacketiser | a zone transfer is cut into packets, each filled until the next record is too big |
| DnsNames | names as text: labels, suffixes, and the SQL pattern used to look for subzones |
| ZoneForest, ZonePurge, ZoneHistory | who may create which zone, where parent links lead, and purging, over interleaved runs |
| StorageCriteria | how the storage reads the text of a search: as a value, a pattern, a comparison or a range |
| ZoneLookup | finding the zone that answers for a name within the scope of a TSIG key |
| ZoneLock | re-entrant zone locks, for one thread and for any interleaving of threads |
| Partitioning, ProducerPaging | producers share the shards and page through the zones of their slice |
| Retry | nested transactions of which only the outermost is tried again |
| Notification | notifications of nested calls, sent when the outermost one leaves |
| ObjectTracking | which fields of an object were assigned and what they held before |
| TcpFraming | DNS messages over TCP, however the stream is cut |
| SoaMailbox | mail addresses in SOA records |
| RecordSetPlacement | where CNAME recordsets may be placed, over runs of requests |
| PoolNameservers | rewriting the NS recordsets of all zones of a pool |
| Sequences, Wrappers | reversing and searching sequences; Option and Result |

Parameters of the models: the clock (`now`), new ids, the storage order of rows, the answers of the notifier, the
chunks a socket delivers, the scheduler's pool, the libraries that read and write numbers, times and addresses
(assumed to read back what they write), and the checks that look at none of the modelled state
(`admitted`). Worker reports, deadlocks and failures of calls are arbitrary.

## What the proofs found

Where a property one would expect does not hold of the code, the code is modelled as it is and the exact condition
is proved.

- A zone below a name is looked for with an SQL pattern in which `_` is a wildcard, so a zone can be hung below
  one that is not its suffix (`ZoneHistory.ParentLinksAreSuffixesExactly`). Parent links still end.
- A report of any verdict, an error included, removes a zone whose deletion is pending
  (`ZoneStatus.RemovalNeedsDeletion`). An update of the zone, a move to another pool or a change of the pool's
  nameservers calls a pending deletion off (`ZoneStatus.DeletionIsCalledOff`,
  `PoolNameservers.RemovalRevivesDeletingZones`). The docstring of `delete_zone`
  (designate/central/service.py:1111-1117) describes neither.
- Removing a nameserver from a pool fails as a whole if any zone of the pool, a secondary one for instance, has no
  NS recordset at its apex (`PoolNameservers.Central.UpdatePool`).
- Updating a recordset does not update its reversed name, by which names that begin with an asterisk are looked
  up; after a rename to such a name a CNAME can be placed beside it (`RecordSetPlacement.PlacementNeedsTheIndex`),
  and after a rename away from one the name stays blocked (`RecordSetPlacement.LeftWildcardIsBlocked`).
  Renames reach this code only over central's RPC interface: the v2 API refuses them
  (designate/objects/adapters/api_v2/recordset.py:29-31), and central's own updates keep the name.
- Retried transactions with shallow copies start from what a failed attempt wrote to its argument
  (`Retry.CopiesAreSafeExactly`).
- If the notifier raises in the middle of sending, the queue is kept and sent again later
  (`Notification.RefusedMessagesAreRepeated`).
- A TCP peer that closes inside a message has the part it sent handed to the application
  (`TcpFraming.ShortBodyIsDelivered`, `TcpFraming.BrokenStreamsEnd`); a length that arrives in two pieces ends the connection
  (`TcpFraming.CutLengthsLoseMessages`).
- A transfer request whose question does not fit a packet ends in an attribute error, not in SERVFAIL
  (`AxfrPacketiser.CrashesExactlyWithoutRoom`).
- A TSIG record larger than the 235 bytes reserved for it, as with a key name of 160 characters and SHA-384 or
  SHA-512, makes a transfer fail when it meets a full packet (`AxfrPacketiser.TransfersCanBeSignedExactly`).
- The order in which reports arrive can decide what becomes of the open records of a zone being deleted, and of a
  zone being updated that some worker reports missing (`ZoneStatus.OrdersAgreeExactly`).
- A queried name is handed to the storage as a search text. Percent signs, a leading `!`, `<` or `>`, a leading
  `BETWEEN` and escaped dots can find a zone that does not answer for the name, or raise an index error
  (`ZoneLookup.LookupIsRightExactly`). For the same reason zones below a name that begins with `BETWEEN` cannot be
  created (`ZoneHistory.AdmittedIsCreatable`).
- Catalog zones, which belong to no tenant, and zone transfers bypass the ownership check
  (`ZoneHistory.RelatedZonesShareTheirTenantExactly`, `ZoneHistory.CatalogMakesPoolRefuse`).
- A mail address whose local part has more than 63 characters, dots included, becomes a name no DNS message can hold
  (`SoaMailbox.MailboxIsLegalExactly`).
- The guard against loops in the zone hierarchy can never fire (`ZonePurge.WalkUpZones`).

## Model

| member | source | states |
|---|---|---|
| ZoneStatus.Resource.UpdateZoneOrRecordStatus | designate/central/service.py:2573-2597 | one report on one zone or record object: exactly which action, status and serial it settles, fails, revives or leaves; the object counts as changed only if it was assigned |
| ZoneStatus.Central.UpdateRecordStatus | designate/central/service.py:2534-2571 | loading only the selected records and writing back only the changed ones equals applying the status helper to every record of the zone |
| ZoneStatus.Central.UpdateStatus | designate/central/service.py:2479-2532 | a report on a stored zone: verdict replaced by NO_ZONE for a matching deletion not in error, zone removed once DELETED, records updated even when the action tag does not match |
| ZoneStatus.Central.UpdateZoneInStorage | designate/central/service.py:1090-1103 | an edit puts the zone to UPDATE and PENDING whatever its action was |
| ZoneStatus.Central.CreateRecordSetInStorage | designate/central/service.py:1479-1573 | new records are stamped CREATE, PENDING and with the new or the zone's serial; refused while the zone is being deleted |
| ZoneStatus.Central.UpdateRecordSetInStorage | designate/central/service.py:1750-1782 | kept records are stamped UPDATE unless they are being deleted, the others go; does not ask whether the zone is being deleted |
| ZoneStatus.Central.UpdateRecordSet | designate/central/service.py:1689-1748 | the same, refused while the zone is being deleted |
| ZoneStatus.Central.DeleteRecordSetInStorage | designate/central/service.py:1786-1857 | the records of the recordset go and the zone is put to UPDATE; refused while the zone is being deleted |
| ZoneStatus.Central.DeleteZoneInStorage | designate/central/service.py:1168-1181 | a deletion puts the zone to DELETE and PENDING and leaves its records alone |
| ZoneStatus.Central.PoolMoveZone | designate/central/service.py:1451-1473 | the NS recordset is rewritten for each nameserver that differs, its records stamped with the old serial, and the zone put to UPDATE and PENDING whatever its action was |
| ZoneStatus.Central.EnsureCatalogZoneSerialIncrement | designate/central/service.py:3101-3113 | a catalog zone goes to UPDATE and PENDING whatever its action was |
| ZoneStatus.Central.IncrementZoneSerial | designate/central/service.py:824-830 | only the serial of the zone moves and the SOA record is stamped with it |
| ZoneStatus.SelectionIsExact | designate/central/service.py:2541-2560 | a record left out by the storage criterion is one the report would not change; a selected one with an action open is changed by a success or an error |
| ZoneStatus.FoldIsOutcome | designate/central/service.py:2573-2597 | any sequence of reports of any kind does to a row what an order-free account says: a success at or above its serial settles it and absorbs everything else, a NO_ZONE makes it one to be created again and absorbs errors; rows that have an action but are neither pending nor failed, which no run produces, are covered for SUCCESS and ERROR |
| ZoneStatus.SummaryDecides | designate/central/service.py:2534-2597 | the fate of a row depends only on the largest SUCCESS serial, the set of ERROR serials and whether there is a NO_ZONE; for rows no run produces, the same of SUCCESS and ERROR alone |
| ZoneStatus.ReportsActRowByRow | designate/central/service.py:2479-2597 | for a zone not being deleted and reports of every kind: between edits a run of reports acts on every record separately, each record seeing all of them, and on the zone separately |
| ZoneStatus.ReportsAreConfluent | designate/central/service.py:2479-2597 | for a zone not being deleted: two sequences with the same reports of any kind, in any order and with any repetition, leave the same zone and the same records, unless the zone is being updated and a NO_ZONE report applies to the update |
| ZoneStatus.ReportsSettle | designate/central/service.py:2579-2587 | for a zone not being deleted: once a success covers a record, the record is settled whatever else is reported before or after, NO_ZONE included |
| ZoneStatus.ReportsOnDeletion | designate/central/service.py:2486-2518 | for a zone being deleted and reports of every kind: those tagged for something else act on the records alone; the first that applies to the deletion removes the zone and leaves every open record to be created again; what comes after changes nothing |
| ZoneStatus.RecordsOfDeletion | designate/central/service.py:2486-2597 | such a record ends settled exactly when a success covers it before the deletion is reported on, whatever the other reports are |
| ZoneStatus.SteadyZoneSeesItsOwn | designate/central/service.py:2488-2509 | until its action is settled a zone sees exactly the reports whose tag matches the action it started from, unless a NO_ZONE turns an update into a creation |
| ZoneStatus.OrdersAgreeExactly | designate/central/service.py:2479-2597 | in every reachable state and for every list of reports of any kind: all orders and repetitions of them lead to the same state unless they are ambiguous, and then two orders differ. Ambiguous for an update: a NO_ZONE applies to it, a success tagged for the update or for a creation covers it, and no untagged one does. Ambiguous for a deletion: some report applies to it, and a success tagged for something else covers an open record |
| ZoneStatus.OrderMattersForUpdates | designate/central/service.py:2573-2597 | a NO_ZONE and a success tagged for the update leave the zone failed as a creation in one order and active in the other |
| ZoneStatus.ReportsAgreeExactly | designate/central/service.py:2479-2597 | in every reachable state all orders and repetitions of the same reports of any kind lead to the same state, whatever the reports, if and only if the zone is gone, or is neither being updated nor being deleted, or is being deleted with no record left to be created or updated |
| ZoneStatus.OrderMattersForDeletion | designate/central/service.py:2486-2518 | a run after which a success and an error leave the record settled in one order and failed in the other |
| ZoneStatus.RemovalNeedsDeletion | designate/central/service.py:2489-2518 | in every reachable state a report removes the zone if and only if the stored action is DELETE and the tag is missing or DELETE; the verdict plays no part |
| ZoneStatus.DeletionIsCalledOff | designate/central/service.py:1090-1103 | in every reachable state a deletion under way is undone by exactly these operations: an update of the zone, a move to another pool, a change of the pool's nameservers, and for a catalog zone the creation or deletion of another zone of its pool |
| ZoneStatus.ActiveMeansConfirmed | designate/central/service.py:2534-2597 | over every run an ACTIVE record was confirmed by a success that reached its serial and has not been touched since |
| ZoneStatus.ActiveSerialsAreConfirmed | designate/central/service.py:2534-2597 | over every run no ACTIVE record has a serial above the largest success processed |
| ZoneStatus.ActiveZoneMayHoldPendingRecords | designate/central/service.py:824-830 | a run that ends with an ACTIVE zone holding a PENDING record |
| ZoneFate.SerialIsGiven | designate/central/service.py:824-830 | over every run the zone's serial is the time of its last serial increment, or the one it was created with |
| ZoneFate.RecordsFollowTheirFate | designate/central/service.py:1544-1782 | over every run: a record that an event created, updated or stamped, and none edited afterwards, is exactly what the reports since then make of it. It is ACTIVE if and only if one of them was a success at or above the serial the edit waits for: the time of the edit when it bumps or comes with a serial, and the zone's serial before it when it does not. Otherwise it is to be created again after a NO_ZONE or a report on a deletion under way, has failed after an error that reached that serial, and is pending if neither came |
| ZoneFate.RecordsAreThoseKept | designate/central/service.py:1750-1857 | over every run the zone holds exactly the records that some accepted edit gave it and no later accepted one took away |
| ZoneFate.ZonesFollowTheirFate | designate/central/service.py:2479-2532 | over every run: a zone that was created, edited, deleted or abandoned, and not set again, is exactly what the reports since then make of it. An edited zone is ACTIVE if and only if one of them was a success, untagged or tagged for the action it had, at or above the serial it had; a deleted one is gone if and only if a report was untagged or tagged for the deletion |
| AxfrPacketiser.Request.MaxMessageSize | designate/mdns/handler.py:528-538 | a packet may have that many bytes before it is signed, and no more, if it is to stay within 65535 and the configured size with the TSIG reserve, which is kept for signed requests alone |
| AxfrPacketiser.Renderer.AddRrset | designate/mdns/handler.py:333-335 | a record that would pass the limit is rolled back, otherwise it is appended |
| AxfrPacketiser.CreateAxfrRenderer | designate/mdns/handler.py:434-447 | a new packet holds the question alone; none can be made exactly when the question does not fit |
| AxfrPacketiser.FinalizePacket | designate/mdns/handler.py:486-526 | the TSIG reserve is released, the signature added in single or multi-message form, the chain context advanced; a TSIG record larger than what is then left makes signing fail |
| AxfrPacketiser.YieldPacket | designate/mdns/handler.py:358-362 | a full packet is signed in multi-message form and sent exactly when its signature fits |
| AxfrPacketiser.RenderRecord | designate/mdns/handler.py:329-363 | the inner loop for one record: it ends, and either places the record in the packet in use or in a new one, or aborts with SERVFAIL, or crashes, or fails to sign the packet it has to yield |
| AxfrPacketiser.HandleAxfr | designate/mdns/handler.py:279-369 | the whole transfer equals the function Answer of the parsable records, for every list of rows and every limit |
| AxfrPacketiser.FinishTransfer | designate/mdns/handler.py:365-369 | the last packet is signed in multi-message form exactly when it is not the only one; without room for the signature the transfer fails instead |
| AxfrPacketiser.GreedyStaysAhead | designate/mdns/handler.py:329-363 | a greedy packing never needs more packets than another order-preserving packing that has at least as much left to send |
| AxfrPacketiser.GreedyIsUnique | designate/mdns/handler.py:329-363 | the records and the limit leave exactly one greedy packing |
| AxfrPacketiser.PouringIsGreedy | designate/mdns/handler.py:290-369 | filling record by record gives a greedy packing of exactly the records, in order |
| AxfrPacketiser.TransferIsFaithful | designate/mdns/handler.py:290-369 | the answers of all packets together are the parsable records in order, up to the first that is too big for an empty packet or to the first packet that cannot be signed; all of them exactly if there is neither |
| AxfrPacketiser.AbortedTransfersEndInServFail | designate/mdns/handler.py:339-357 | an aborted transfer ends in its only SERVFAIL and a complete one has none |
| AxfrPacketiser.PacketsAreWithinLimit | designate/mdns/handler.py:486-538 | no packet is empty and each is within the configured limit and 65535 after its signature is added, whatever the size of the signature |
| AxfrPacketiser.SigningFailsExactly | designate/mdns/handler.py:486-526 | a transfer stops for want of room for a signature exactly when some packet of its packing is that full; exactly the packets before the first such have been sent |
| AxfrPacketiser.SigningNeverFailsExactly | designate/mdns/handler.py:39-39 | no transfer of a request stops that way if and only if it is not signed or its TSIG record fits the reserve of 235 bytes |
| AxfrPacketiser.KeysThatFit | designate/objects/tsigkey.py:34-34 | the TSIG record (section 4.2 of RFC 8945) of a key whose name has at most 160 characters, written without a final dot, fits the reserve with every algorithm up to SHA-256, with SHA-384 for names of at most 146 characters and with SHA-512 for at most 130 |
| AxfrPacketiser.TransfersCanBeSignedExactly | designate/common/constants.py:93-100 | for a signed request every transfer can be signed if and only if its key is one of these |
| AxfrPacketiser.SignaturesAreChained | designate/mdns/handler.py:509-525 | a signed transfer uses multi-message signatures, each continuing the one before, unless its one packet is all there is to send; an unsigned one has none |
| AxfrPacketiser.TransferUsesFewestPackets | designate/mdns/handler.py:290-369 | however a transfer ends, no order-preserving split of the records it sent into packets within the limit is shorter |
| AxfrPacketiser.PackingUsesFewestPackets | designate/mdns/handler.py:290-369 | the same of the packets planned for all records before the first that is too big |
| AxfrPacketiser.AbortsExactlyOnBigRecords | designate/mdns/handler.py:339-357 | when packets can be made and signed, a transfer is aborted if and only if some record is too big for a packet of its own, and is complete otherwise; an unsigned one never fails to sign |
| AxfrPacketiser.CrashesExactlyWithoutRoom | designate/mdns/handler.py:331-339 | the handler fails with an attribute error exactly when there is a record to render and not even the question fits |
| AxfrPacketiser.TransferOpensAndClosesWithSoa | designate/mdns/handler.py:266-277 | a complete transfer opens and closes with the SOA record when that parses (section 2.2 of RFC 5936) |
| DnsNames.AboveIsAncestor | designate/central/service.py:300-309 | every name above a name is met by dropping labels one at a time |
| DnsNames.SubzonePattern | designate/central/service.py:327-331 | the search term for subzones finds a name exactly when it is some prefix, a dot, and a text that matches the zone name with its underscores as wildcards |
| DnsNames.PatternIsExact | designate/central/service.py:327-331 | that search finds exactly the names below the zone if and only if the zone name has no underscore |
| StorageCriteria.ZoneTextIsPlain | designate/storage/sqlalchemy/base.py:139-158 | a text of name characters and dots is searched for by equality, unless it begins with BETWEEN: then it cannot be read |
| StorageCriteria.OperatorsMean | designate/storage/sqlalchemy/base.py:139-158 | a value behind an exclamation mark finds every other text; behind a comparison sign it finds the texts on that side, character by character, itself included only with an equals sign |
| StorageCriteria.RangesMean | designate/storage/sqlalchemy/base.py:150-158 | a range finds the texts from one bound to the other, both included |
| StorageCriteria.FindsOthersExactly | designate/storage/sqlalchemy/base.py:139-158 | the texts, among those behind a dot of a DNS name, by which zones of other names can be found: a negation always, a pattern exactly when a filled-in copy is a zone name, a comparison exactly when the smallest or greatest zone name is on that side |
| StorageCriteria.FindingTwo | designate/storage/sqlalchemy/base.py:139-158 | a text that finds one zone as more than a value finds two of the same length |
| ZoneForest.Central.CheckZoneOwnershipConflicts | designate/central/service.py:335-376 | refuses exactly when a search text cannot be read before a zone above is met, or a zone of another tenant has the name, or is among the nearest above it, or is found by the subzone search; with the error for the first of these |
| ZoneForest.Central.IsSubzone | designate/central/service.py:293-318 | finds the zone of the pool with the longest name above, or none if there is none; fails exactly when a search text cannot be read before that |
| ZoneForest.Central.IsSuperzone | designate/central/service.py:320-333 | finds exactly the live zones of the pool that the pattern matches |
| ZoneForest.ClearMeansNoForeignRelative | designate/central/service.py:355-376 | given that related zones share a tenant, passing the check at the nearest level settles every level, every pool and every subzone |
| ZoneForest.PoolChecksNeverRefuse | designate/central/service.py:873-893 | the checks inside the pool that follow can then never refuse |
| ZoneForest.InsertKeepsForest | designate/central/service.py:939-962 | storing a zone under a free name keeps names valid and unique and parent links sound |
| ZoneForest.InsertKeepsOwned | designate/central/service.py:939-962 | storing a zone without relatives of other tenants keeps related zones with one tenant |
| ZoneForest.AdoptKeepsForest | designate/central/service.py:929-935 | hanging any part of the subzones below a zone keeps the forest |
| ZoneForest.ParentPathsEnd | designate/storage/sqlalchemy/__init__.py:660-673 | following parent links visits at most 127 zones and none twice |
| ZoneForest.ParentIsSuffix | designate/central/service.py:879-881 | a parent whose name has no underscore is a strict label suffix of the child |
| ZoneForest.CreateZone | designate/central/service.py:836-937 | succeeds exactly when there is a tenant and a second label, every search text met can be read, ownership is clear, the parent and subzones found in the pool are the tenant's and the name is free in the pool; otherwise changes nothing and gives the error for the first of these that fails, DuplicateZone for a name the tenant itself has in the pool. Adds the zone with the nearest zone above as parent and hangs all its subzones below it; keeps the forest and shared ownership; while ownership is shared the pool-scoped refusals never happen |
| ZoneForest.NewZoneTakesItsSubzones | designate/central/service.py:929-962 | exactly the live zones of the pool that the pattern finds get the new zone as parent, which also calls off their deletion; nothing else changes |
| ZoneForest.HangSubzones | designate/central/service.py:929-935 | re-parents the subzones one update at a time, the forest holding after every one |
| ZonePurge.WalkUpZones | designate/storage/sqlalchemy/__init__.py:660-673 | finds the nearest zone up the parent links that is not in the batch; the loop guard of 128 steps never fires |
| ZonePurge.PurgeZones | designate/storage/sqlalchemy/__init__.py:675-718 | purging a batch removes its rows; a zone whose parent is purged gets as parent the first zone outside the batch up the parent links, or none; every other row stays as it is |
| ZonePurge.ChildrenMoveUp | designate/storage/sqlalchemy/__init__.py:675-718 | the same of every order of the batch, told by the parent links before the purge alone |
| ZonePurge.PurgeOrderDoesNotMatter | designate/storage/sqlalchemy/__init__.py:692-716 | the order of a batch and repetitions in it make no difference |
| ZonePurge.PurgeKeepsForest | designate/storage/sqlalchemy/__init__.py:675-718 | purging keeps names, ownership and parent links sound |
| ZonePurge.PurgeLeavesNoOrphans | designate/storage/sqlalchemy/__init__.py:700-716 | after a purge no row points at a purged zone; a changed parent is outside the batch |
| ZoneHistory.StepKeeps | designate/central/service.py:832-937 | every step of a creation, and catalog zones, transfers, pool moves, updates, deletions, removals and purges between those steps, keep the forest and the facts the creation relies on |
| ZoneHistory.RelatedZonesShareTheirTenantExactly | designate/central/service.py:335-376 | in every run, live zones with equal or ancestor-related names, the one about to be stored included, have one tenant in every state across all pools if and only if no catalog zone is stored and no zone transferred next to a relative of another tenant |
| ZoneHistory.UncleanBreaksShared | designate/storage/sqlalchemy/__init__.py:2500-2511 | each such catalog zone or transfer at once leaves related zones with different tenants |
| ZoneHistory.NamesAreUniquePerPool | designate/storage/sqlalchemy/__init__.py:2482-2511 | in every state of every run a live name occurs once per pool |
| ZoneHistory.ZonesStayThemselves | designate/central/service.py:929-962 | over every run a zone keeps its id and its name as long as its row is there, its tenant unless it is transferred and its pool unless it is moved; once removed it stays removed |
| ZoneHistory.PoolRefusalsAreUnreachable | designate/central/service.py:873-893 | in every run without them, from the ownership check of a creation to its insertion, however many steps later, every lookup in a pool finds only zones of its tenant, so IllegalChildZone and IllegalParentZone cannot be raised there |
| ZoneHistory.CatalogMakesPoolRefuse | designate/storage/sqlalchemy/__init__.py:2482-2511 | for any three names below each other: a catalog zone stored above another tenant's zone makes a creation pass the ownership check and be refused in the catalog's pool |
| ZoneHistory.ParentLinksEnd | designate/central/service.py:929-935 | in every state of every run, also halfway through re-parenting, parent links end |
| ZoneHistory.ParentLinksAreSuffixesExactly | designate/central/service.py:327-331 | over all runs what hangs below a zone name has it as a strict label suffix if and only if the name has no underscore, is longer than 252 characters, or is no name under which a zone can be created |
| ZoneHistory.UnderscoreParentNeedNotBeSuffix | designate/central/service.py:929-935 | for every other name, a run that hangs a zone below one that is not its suffix |
| ZoneHistory.AdmittedIsCreatable | designate/central/service.py:356-367 | over all runs a name passes the ownership check only if no text behind one of its dots begins with BETWEEN |
| ZoneLookup.FindZone | designate/storage/sqlalchemy/base.py:271-283 | a search for one zone succeeds exactly when the text can be read and there is exactly one hit in scope |
| ZoneLookup.FindZoneByAncestorWalk | designate/mdns/handler.py:190-239 | the walk ends at the first name, dropping labels, that finds exactly one zone in the scope of the TSIG key, or that cannot be read; it fails as forbidden exactly without a key where keys are enforced and as not implemented exactly for keys of other scopes; the zone found is in the key's pool, is the key's zone, or is in the default pool of a request without key |
| ZoneLookup.AnswersComeFromTheGrant | designate/mdns/handler.py:190-239 | for names of which no text strays, as in LookupIsRightExactly: the answer is, of the zones the key grants, the one with the longest name that answers, and none only if none of them answers |
| ZoneLookup.LookupIsRightExactly | designate/mdns/handler.py:214-239 | for every DNS name: the walk finds the zone with the longest name that answers for it, in every store and scope, if and only if no text behind a dot of the name, escaped dots included, can be unreadable or find zones that do not answer |
| ZoneLookup.OrdinaryNamesAreRight | designate/mdns/handler.py:214-239 | so it does for every name without escapes and percent signs in which no label begins with an exclamation mark, an angle bracket or BETWEEN |
| ZoneLookup.PercentFindsSubzone | designate/storage/sqlalchemy/base.py:139-140 | a percent sign in front of the name of any zone finds any one subzone of it although the zone itself is there to answer |
| ZoneLock.ZoneLockLocal.Release | designate/common/decorators/lock.py:32-33 | removes a name that must be held |
| ZoneLock.SyncWrapper | designate/common/decorators/lock.py:83-102 | an operation takes its lock only if the thread lacks it, and leaves the held set as it found it |
| ZoneLock.OperationsAreDisciplined | designate/central/service.py:832-937 | each synchronized operation of central takes locks only in the order create-new-zone, then one zone at a time |
| ZoneLock.CentralIsDisciplined | designate/central/service.py:832-937 | so any threads that run any of these operations are covered by what follows, which holds for all programs of operations that keep this order and call back into locks they hold in any way |
| ZoneLock.OperationsAreCarriedOut | designate/common/decorators/lock.py:83-102 | whatever locks the thread holds, apart from taking and releasing locks an operation begins and ends exactly as without locks: every call it makes, re-entrant or not, as a whole between its beginning and its end, in order |
| ZoneLock.EveryCallIsEntered | designate/common/decorators/lock.py:94-100 | the operations entered are those of the whole call tree, each once, the outer before the inner |
| ZoneLock.OperationsEnter | designate/central/service.py:931-935 | creating a zone enters the creation and then an update of each subzone in turn; any other operation enters itself |
| ZoneLock.FinishedThreadsDidEverything | designate/common/decorators/lock.py:75-105 | for all such programs, in every interleaving a thread without work left has carried out its whole program, every operation and every call in it once and in order |
| ZoneLock.TraceExecutes | designate/common/decorators/lock.py:83-102 | such an operation, with any re-entrant calls, never takes a lock twice, never releases an absent one or one it is still inside, and ends with the locks it began with |
| ZoneLock.StepKeeps | designate/common/decorators/lock.py:94-100 | any enabled step of any thread keeps the ownership invariant |
| ZoneLock.MutualExclusion | designate/common/decorators/lock.py:75-105 | for all such programs, in every interleaving at most one thread is inside operations under a given lock |
| ZoneLock.ReleasesAndAcquiresAreProper | designate/common/decorators/lock.py:29-36 | for all such programs, in every interleaving whoever releases a lock holds and owns it and has left its operations; whoever takes one does not have it |
| ZoneLock.NoCircularWait | designate/common/decorators/lock.py:94-100 | for all such programs no chain of waiting threads returns to its start |
| ZoneLock.SomeThreadCanRun | designate/common/decorators/lock.py:94-100 | for all such programs, while work is left, some thread can go on |
| Partitioning.SameMembershipSameOrder | designate/coordination.py:187-193 | the same members reported in any order are sorted the same way |
| Partitioning.SlicesCoverAll | designate/coordination.py:171-181 | the slices of all member positions in order are the partition list |
| Partitioning.SliceSizes | designate/coordination.py:171-181 | no slice exceeds the rounded-up share, and position i is idle exactly when i shares already cover everything |
| Partitioning.OnlyMembersHaveSlices | designate/coordination.py:171-193 | a slice can be computed exactly by members of the reported group |
| Partitioning.ProducersShareEverything | designate/coordination.py:171-193 | producers that see the same group, each in its own order, together hold every partition exactly once |
| Partitioning.Partitioner.Start | designate/coordination.py:199-218 | with a coordinator the first slice is computed and registered callbacks are not told; without one the whole list is taken and all are told; a failure leaves the partitioner as it was |
| Partitioning.Partitioner.OnGroupChange | designate/coordination.py:165-169 | every callback hears of the slice computed from the new group |
| Partitioning.Partitioner.WatchPartitionChange | designate/coordination.py:220-226 | a callback registered after the start is told at once, one registered before is told nothing yet |
| ProducerPaging.BetweenIsSlice | designate/producer/tasks.py:68-76 | BETWEEN the first and last element selects exactly the shards of the slice; an empty slice is an index error |
| ProducerPaging.PageAfter | designate/storage/sqlalchemy/utils.py:52-79 | asking with the id of a selected row as marker gives the rows behind it, as many as the page size allows |
| ProducerPaging.PageOrderIsStrict | designate/storage/sqlalchemy/utils.py:52-79 | rows with different ids come in one order, the older first |
| ProducerPaging.Iter | designate/producer/tasks.py:78-89 | paging ends without an error and yields every zone of the range once, in page order; a page size of zero yields nothing |
| ProducerPaging.EveryZoneVisitedOnce | designate/producer/tasks.py:91-94 | producers that see the same group visit, all together, every zone with a shard in 0..4095 exactly once |
| Retry.RetryState.Wrapper | designate/storage/__init__.py:53-100 | the decorated call, outermost or nested, does what the call tree prescribes and leaves the retry state as it was, not held and zero for the outermost |
| Retry.RetryState.TryAgainAndAgain | designate/storage/__init__.py:63-84 | the retry loop ends for every pattern of failures |
| Retry.OutermostRunsAtMostLimit | designate/storage/__init__.py:64-84 | the outermost body runs at least once and at most max(1, retries) times |
| Retry.RunsAreExact | designate/storage/__init__.py:64-84 | how often an outermost call runs its body, read off the ends of the runs alone: again after exactly those runs that did not return, were below the limit and, if only deadlocks are tried again, were deadlocks; it ends as its last run |
| Retry.NestedCallsRunOnce | designate/storage/__init__.py:90-98 | a call inside another runs once, whatever its limit and however it ends |
| Retry.BodiesEndWhereStopped | designate/storage/__init__.py:66-72 | a body ends as the first call it makes that fails and is not caught, or as it says when there is none |
| Retry.CallsAreMadeUntilStopped | designate/storage/__init__.py:90-98 | it makes exactly the calls up to that one, each with one run |
| Retry.NestedCallsAreNotRetried | designate/storage/__init__.py:90-98 | the runs inside a run are, in order, single runs of the decorated calls its body makes, and so on inwards |
| Retry.NestedLimitsDoNotMatter | designate/storage/__init__.py:90-98 | replacing the limits and filters of all nested decorators changes nothing |
| Retry.DeepCopiesStartAfresh | designate/storage/__init__.py:66-68 | with deep copies every attempt starts from the original argument and the caller keeps it unchanged |
| Retry.LastAttemptDecides | designate/storage/__init__.py:64-84 | each attempt starts from what the one before left; the last is the first that returned, failed for good or used up the limit, and decides the outcome |
| Retry.AttemptsStartAfresh | designate/storage/__init__.py:66-72 | for a given argument every attempt starts from it if and only if copies are deep or no body that is run again leaves another value in it; which bodies are run again and what they leave is read off the bodies and their endings |
| Retry.CopiesAreSafeExactly | designate/storage/__init__.py:66-72 | a call starts every attempt from its original argument, whatever that is, if and only if it copies deeply or no body that is run again writes to its argument, itself or through nested calls that share it |
| Retry.ShallowCopyKeepsChanges | designate/storage/__init__.py:130-149 | a shallow-copy transaction whose second attempt starts from an argument changed by the first |
| Retry.SharedArgumentsKeepWrites | designate/storage/__init__.py:66-72 | what a nested call writes to its argument is there when the calling body goes on, unless the call copies deeply |
| Notification.NotificationThreadLocal.Wrapper | designate/common/decorators/notification.py:39-87 | a nested call only queues; the outermost one sends the queue, newest first, whether it succeeds or not; the stack returns to its level and the queue is emptied exactly when the notifier took everything |
| Notification.NotificationThreadLocal.Emit | designate/common/decorators/notification.py:70-87 | messages are sent from the left; if the notifier raises, the queue stays whole |
| Notification.NotificationThreadLocal.AppendAllLeft | designate/common/decorators/notification.py:54-63 | payloads are put in front of the queue one by one |
| Notification.HeardOf | designate/common/decorators/notification.py:40-87 | a message is queued exactly when it belongs to a call that was reached and succeeded |
| Notification.SentBySuccessfulCalls | designate/common/decorators/notification.py:40-87 | a message is sent for an outermost call exactly if it has the context and the kind of a call that was reached and succeeded, and one of its payloads |
| Notification.SentIsDue | designate/common/decorators/notification.py:40-87 | each is sent as often as the payload occurs in such calls, and no more often |
| Notification.OwnMessagesAreSentFirst | designate/common/decorators/notification.py:54-63 | a call that succeeds has its own messages sent before all others, the last payload first |
| Notification.LaterCallsAreSentFirst | designate/common/decorators/notification.py:54-87 | of two calls made in turn the messages of the later one, and of the calls inside it, are sent first |
| Notification.RefusedMessagesAreRepeated | designate/common/decorators/notification.py:78-87 | after a notifier gives up in the middle the next outermost call sends the same messages again |
| ObjectTracking.TrackedObject.Assign | designate/objects/base.py:474-502 | one assignment: a value the field refuses and another value for a read-only field that is set are errors and change nothing; otherwise the value, the changed mark and the saved original |
| ObjectTracking.TrackedObject.ResetChanges | designate/objects/base.py:226-232 | a reset of all or of the named fields |
| ObjectTracking.TrackedObject.GetOriginalValue | designate/objects/base.py:234-241 | the original value, or a key error for a field never set |
| ObjectTracking.DeclaredFieldsSettle | designate/objects/fields.py:30-440 | every kind of field that objects declare, given a value equal to one it holds, keeps it or refuses it |
| ObjectTracking.OriginalsAreExact | designate/objects/base.py:234-241 | after every run the original value of every declared field is the one at its last reset, or the first since |
| ObjectTracking.TrackingNeedsSettling | designate/objects/base.py:484-502 | for fields of any other make that holds if and only if the field is read-only or settles in this way |
| ObjectTracking.ChangedMeansAssigned | designate/objects/base.py:226-232 | a field counts as changed exactly when it was effectively assigned since its last reset |
| ObjectTracking.UnchangedFieldsKeepTheirValue | designate/objects/base.py:226-232 | a field not counted as changed holds the very value of its last reset, whatever its make |
| ObjectTracking.ReadOnlyFieldsStay | designate/objects/base.py:476-481 | a read-only field never changes after it is set, over every further run |
| ObjectTracking.FieldsHoldWhatTheyWereGiven | designate/objects/base.py:474-502 | over every run a field is set exactly if some value it accepts was assigned; it holds what it makes of the last such value, or of the first if it is read-only, whatever was reset |
| ObjectTracking.FieldsRefuseExactly | designate/objects/fields.py:30-440 | which values a declared field of each kind refuses, null included |
| ObjectTracking.ShapedFits | designate/objects/fields.py:30-440 | what a field makes of a value fits its kind: in range, among the choices, with or without offset, and so on |
| ObjectTracking.FittingIsTaken | designate/objects/fields.py:30-440 | a value that fits is taken as it is, identifiers and addresses aside |
| ObjectTracking.DeclaredFieldsFit | designate/objects/base.py:474-502 | after every run every declared field that is set holds null, if it may, or a value that fits its kind |
| ObjectTracking.TruthAndTime | designate/objects/fields.py:30-440 | only the empty text, zero and false become false; a time without an offset is taken to be UTC where offsets are kept, and offsets are dropped where they are not |
| TcpFraming.Client.Recv | designate/service.py:262-275 | one receive call returns data up to the next cut, nothing at the end of the stream, or times out |
| TcpFraming.ReadBody | designate/service.py:269-276 | the body loop ends and collects the expected bytes, or what there is when the peer closes |
| TcpFraming.SendReplies | designate/service.py:281-290 | present responses go out in frames until one is too long for its length |
| TcpFraming.HandleTcpConn | designate/service.py:256-290 | for every chunking the connection delivers, answers and ends as a parse of the stream says that looks only at cuts inside lengths |
| TcpFraming.UnpackPack | designate/service.py:265-289 | every length up to 65535 is read back as written, high byte first (section 4.2.2 of RFC 1035) |
| TcpFraming.MessagesArrive | designate/service.py:256-290 | messages in front of the first split length arrive as sent and their responses go back in frames |
| TcpFraming.CutLengthsLoseMessages | designate/service.py:262-265 | all messages of a peer that closes or falls silent behind them arrive if and only if no cut falls inside a length; otherwise exactly those before the first such cut, and the connection ends in a struct error |
| TcpFraming.ShortBodyIsDelivered | designate/service.py:274-278 | a peer that closes inside a body: the application is handed the part that came |
| TcpFraming.BrokenStreamsEnd | designate/service.py:256-290 | a stream that stops anywhere inside a frame: after one byte of a length a struct error; inside a body the part that came is handed over if the peer closes and thrown away if it falls silent until the timeout |
| TcpFraming.LongResponseEndsConnection | designate/service.py:281-290 | the first message with a response longer than 65535 bytes is delivered, the responses before that one are sent, and the connection ends in a struct error, whatever follows |
| TcpFraming.ResponsesReadBack | designate/service.py:281-290 | reading the sent responses back with the same framing gives the responses |
| SoaMailbox.SoaToNormal | designate/dnsutils.py:63-83 | the loop over the parts computes mailbox and domain |
| SoaMailbox.PartsOfAddress | designate/central/service.py:414-419 | the encoded address splits into the escaped parts of the mailbox and the parts of the domain |
| SoaMailbox.RoundTrip | designate/dnsutils.py:63-83 | any address with no backslash before the at-sign and a non-empty domain survives encoding and decoding |
| SoaMailbox.AcceptedEmailsSurvive | designate/objects/fields.py:188-199 | every address that EmailField accepts survives (sections 3.3.13 and 8 of RFC 1035) |
| SoaMailbox.EmailsAreAcceptedExactly | designate/objects/fields.py:188-199 | an address is accepted if and only if its local part and its domain, with dots between and behind them, make a zone name |
| SoaMailbox.EmptyDomainIsLeftOut | designate/dnsutils.py:63-83 | a mailbox with nothing behind it is decoded without an at-sign |
| SoaMailbox.EncodingIsInjective | designate/central/service.py:414-419 | no two accepted addresses share an encoding |
| SoaMailbox.MailboxIsLegalExactly | designate/central/service.py:414-427 | read as a DNS name the encoded address has the whole local part as one label, and is legal (section 2.3.4 of RFC 1035) if and only if that has at most 63 characters |
| RecordSetPlacement.Central.IsValidRecordSetPlacement | designate/central/service.py:193-216 | a CNAME passes exactly when it is not at the apex and nothing but itself is found under the name, any other recordset exactly when no CNAME but itself is found there |
| RecordSetPlacement.Central.ValidateRecordSet | designate/central/service.py:1522-1542 | one condition for each error: outside the zone or not alone, then a CNAME with several records; nothing else is refused |
| RecordSetPlacement.Central.CreateRecordSet | designate/central/service.py:1544-1573 | stores the recordset with its reversed name, or changes nothing and says why |
| RecordSetPlacement.Central.UpdateRecordSet | designate/central/service.py:1750-1782 | stores new name and records, the reversed name staying as it was, or changes nothing and says why |
| RecordSetPlacement.Central.DeleteRecordSet | designate/central/service.py:1835-1857 | drops the recordset |
| RecordSetPlacement.PlacementMeansNoOther | designate/central/service.py:199-214 | the test on the count of recordsets found means that nothing but the recordset itself is found |
| RecordSetPlacement.RequestsKeepPlacement | designate/central/service.py:193-216 | while every wildcard recordset can be looked up, no request misplaces one; this stays so unless a rename to a wildcard name leaves a different reversed name |
| RecordSetPlacement.CnamesStandAlone | designate/central/service.py:193-216 | over every run without such renames a CNAME shares its name with nothing, is not at the apex and has at most one record (section 3.6.2 of RFC 1034) |
| RecordSetPlacement.PlacementNeedsTheIndex | designate/storage/sqlalchemy/__init__.py:2476-2480 | from a sound state creating and deleting can never misplace a recordset if and only if every wildcard recordset can be looked up by its reversed name |
| RecordSetPlacement.RenamedWildcardIsMissed | designate/storage/sqlalchemy/__init__.py:1070-1080 | for any names of the zone: create a recordset, rename it to a wildcard, add a CNAME of that name; the CNAME ends up beside it |
| RecordSetPlacement.RequestsAreCarriedOutExactly | designate/central/service.py:1522-1857 | while reversed names are up to date: a create or update is carried out if and only if the name is in the zone, a CNAME is below the apex with at most one record, and no other recordset has the name together with the same type or with a CNAME on either side; it stores exactly what was asked for and nothing else changes |
| RecordSetPlacement.RenamesAreLeftBehind | designate/storage/sqlalchemy/__init__.py:1070-1080 | reversed names stay up to date exactly until a recordset is given another name |
| RecordSetPlacement.NamesAndTypesAreUnique | designate/storage/sqlalchemy/__init__.py:1066-1080 | over every run, renames included, a name has one recordset of a type |
| RecordSetPlacement.LeftWildcardIsBlocked | designate/storage/sqlalchemy/__init__.py:2476-2480 | for any names of the zone: a recordset renamed away from a wildcard name still blocks that name for a CNAME |
| PoolNameservers.Central.UpdatePool | designate/central/service.py:2393-2449 | the exact error or the exact new hosts, action and status of every zone of the pool, for any order of hosts and zones; an error undoes everything; in between no zone in service that had the old hosts has none |
| PoolNameservers.Central.AddNsEverywhere | designate/central/service.py:2424-2431 | one host added to every zone not being deleted, or a duplicate record error |
| PoolNameservers.Central.DeleteNsEverywhere | designate/central/service.py:2440-2447 | one host removed from every zone of the pool, or an error for a zone without an NS recordset |
| PoolNameservers.Central.AddHosts | designate/central/service.py:2422-2431 | all additions, in any order |
| PoolNameservers.Central.DeleteHosts | designate/central/service.py:2433-2447 | all removals, in any order; the last host cannot be removed |
| PoolNameservers.ZonesFollowThePool | designate/central/service.py:2419-2447 | a zone in service ends with exactly the requested hosts if and only if it held only old and requested hosts and all that are both |
| PoolNameservers.RemovalRevivesDeletingZones | designate/central/service.py:2440-2447 | a zone being deleted is put back into service exactly when the change removes a host |
| PoolNameservers.ChangesAreAnnounced | designate/central/service.py:2419-2447 | for every zone: exactly the hosts it has after the change; if its NS recordset is rewritten it is put to UPDATE and PENDING with a new serial and a notification due, and otherwise nothing but those hosts changes |
| PoolNameservers.ChangesAreRefusedExactly | designate/central/service.py:2422-2447 | the first reason that applies: a zone in service has a host to be added, the last host would go, or a host is to go and a zone has no NS recordset to take it from |

## Left out

- AxfrPacketiser: a record costs a fixed number of bytes; name compression, which makes the cost depend on what the packet already holds, is not modelled, and neither are the bytes of headers, records and signatures. Of a TSIG key the length of the name and the algorithm count; a compressed key name would be shorter.
- AxfrPacketiser: the catalog zone's rows and the lookup of the zone before a transfer; the rows are an arbitrary list.
- ZoneStatus: the storage's recordset grouping; a recordset is the set of its record ids, and a deleted recordset takes its records with it.
- ZoneStatus.Central.PoolMoveZone: a zone without an NS recordset, which then gets one if it is primary, is not modelled here.
- ZoneStatus: zone imports, and how a worker comes to its verdict; reports are arbitrary.
- ZoneForest: quotas, blacklists, TLD rules, policy and the scheduler are not modelled; the pool is chosen freely.
- DnsNames.SubzonePattern: LIKE is modelled as case-sensitive; the collation of the database may not be.
- StorageCriteria: texts are compared character by character, and LIKE has no escape character; collations and databases may differ in both. Lists and values other than texts are not modelled as criteria.
- ZoneLookup: the labels of a question are taken as dnspython shows them, of which only the limits on unescaped text and the absence of blanks are used; the lookup of the recordset in the zone found is not modelled.
- ZonePurge: a batch is purged without other operations in between; shards and the limit on the batch are the caller's.
- ZoneLock: the lock service itself; a lock is taken only when nobody owns it. Failing to obtain a lock, and how the zone id is extracted from arguments, are not modelled.
- Partitioning: the ceiling of a floating-point quotient is modelled by exact integer arithmetic; the retries of membership queries are not modelled, nor is a query that fails for good.
- ProducerPaging: the store does not change while a task pages through it.
- Retry: the delay between attempts, exceptions outside Exception, and the database sessions that transactions open.
- Notification: which argument is the context; it is part of the call.
- ObjectTracking: recursive resets, lists changed in place, relations that are not loaded, and floating-point values.
- TcpFraming: exceptions raised by the application and socket errors other than timeouts.
- SoaMailbox: the other fields of the SOA record.
- RecordSetPlacement: requests are taken one after the other; two validations that overlap are not modelled. TTL rules, quotas, child zones and permissions are one yes or no (`admitted`), asked before the modelled checks; so are names that begin with BETWEEN, for which the storage cannot search.
- PoolNameservers: record quotas and the validation of the NS recordset; pool attributes other than the nameservers.
- Backends, REST and WSGI layers, RPC, policy rules, worker tasks and record type validators are not part of this model.
