# Thawr, a verified model

Thawr is a self-hosted WireGuard mesh. A control server keeps the registry and pushes netmaps to its clients; each client
checks a netmap against pinned keys and a signed network lock before any peer reaches the device. This project models that
trust and key-distribution protocol in Dafny, with the change notification, the caches and the small codecs around it, and
proves what the design promises over every input, every run and every interleaving.

The parts, one module a file:

- `Basics`, `Numbers`, `Netip`, `Order`: shared types, big-endian numbers, addresses, sorting.
- `LockRecord`: the canonical encoding of peer and lock records and the rule by which a record succeeds another.
- `ClientPins`, `Daemon`: the client's trust store with its copy on disk, and the step that applies one netmap.
- `TrustRuns`, `LockRuns`: what holds over whole runs of offers, failed writes and restarts.
- `Control`, `NetMapBuild`, `SignedNetMaps`: the server's tables as atomic transactions, the netmap built from three separate
  reads, and what such a netmap shows of signed keys.
- `Hub`, `SyncStreams`, `ReachRequests`, `PathWants`: wake-ups of open streams, numbered reach requests, and the client's answer
  to them.
- `PolicyCache`, `KeyVisibility`: the two caches, as interleavings of their critical sections with commits and reloads.
- `Stun`, `Allocator`, `Systemd`, `DropWindow`: codecs and small algorithms.

State the program updates in place is a class whose methods are proved against functions on values; the run-level lemmas are
about those functions. A protocol between goroutines is a step system: a state, the actions enabled in it, and lemmas over every
sequence of actions. Signature checks, base64 text forms and similar library calls are function values collected in the datatype
`Basics.Lib`; a lemma holds for every such library unless it asks for the one law `Basics.TextRoundTrips`. Text is a sequence of
bytes, time a whole number of nanoseconds, and clocks, write outcomes and store errors are parameters.

Where the code does less than one might read into its comments:

- `LoadPins` accepts a saved lock record only when a signer the record itself lists signed it, while `UpdateLock` accepts one
  signed by the set before it. A client that pinned such a hand-over cannot start again, nor one that pinned a record without
  signers: `LockRuns.RestartsIff` gives the exact condition, `LockRuns.SignerlessStrands` and
  `LockRuns.AcceptedButNotReloadable` the failing cases.
- `HoldUnsigned` says it removes every entry without a valid signature. Entries without a name, id or key pass both client
  checks untouched, lock on or off: `TrustRuns.EnabledConfigIff` says exactly which keys reach the device, and
  `TrustRuns.UnsignedReachesDevice` shows an unsigned one. Results about peers are stated for the other entries
  (`ClientPins.Checked`), which are the ones the server builds.
- `syncPaths` compares a request only with the last number it saw. Alone that does not prevent acting on one number twice
  (`PathWants.LastNumberAloneActsTwice`); with the hub's numbering it does (`PathWants.ActsOncePerNumber`).
- `RotateKey` promises that other devices never see the new key unsigned. A rename keeps the signature rows of a peer, but they
  no longer cover its name, and a later lock record may drop the signer. `SignedNetMaps.RotationShownSigned` and
  `SignedNetMaps.RotationShownIff` give the exact condition, that the record read still lists the signer and the peer list shows
  the name under which the key was last signed; `SignedNetMaps.RenamedRotationUnsigned` is a netmap where it fails.
- The hash compared on a policy cache hit never decides: the cache always holds the current policy object under its own hash
  (`PolicyCache.CacheIsCurrent`).

## Model

| member | source | states |
|---|---|---|
| LockRecord.WriteField | internal/lock/record.go:208-215 | appends the two-byte length and the field; refuses exactly the fields longer than 65535 bytes |
| LockRecord.FieldPrefixFree | internal/lock/record.go:208-215 | whatever follows, equal bytes mean an equal field and an equal rest |
| LockRecord.EncodePeer | internal/lock/record.go:48-60 | the encoder writes exactly the canonical bytes, or refuses exactly the records without id or name or with a field too long |
| LockRecord.PeerBytesInjective | internal/lock/record.go:48-60 | two peer records with equal bytes are equal |
| LockRecord.Validate | internal/lock/record.go:130-154 | the loop with its seen-maps decides exactly: at most the allowed signers, some unless disabled, no zero key or empty id, none listed twice |
| LockRecord.WriteSigners | internal/lock/record.go:96-104 | writes key and id of every signer in order, or refuses exactly when an id is too long |
| LockRecord.EncodeRecord | internal/lock/record.go:82-105 | validated records become header and sorted signers, all others are refused |
| LockRecord.RecordBytesInjective | internal/lock/record.go:82-160 | two records have equal bytes if and only if generation, disabled flag and signer set agree, in whatever order the signers are listed |
| LockRecord.KindsDisjoint | internal/lock/record.go:48-105 | no peer record and no lock record share their bytes |
| Netip.SliceBack | internal/stun/stun.go:191-192 | an address is read back from its bytes |
| Numbers.XorTwice | internal/stun/stun.go:192-198 | masking a byte twice gives the byte |
| Order.SortSorts | internal/lock/record.go:156-160 | sorting gives a sorted permutation |
| Order.SortedUnique | internal/lock/record.go:156-160 | with distinct keys the sorted arrangement is unique, so the unstable sort of the source gives the same list |
| ClientPins.LoadPins | internal/client/pins.go:85-112 | a missing file is the empty set; a file is refused exactly when it cannot be read, for an incomplete entry or for a record none of its own signers signed; else memory equals the file |
| ClientPins.Pins.Save | internal/client/pins.go:115-122 | the file becomes the whole set or stays as it was |
| ClientPins.Pins.IndexByID | internal/client/pins.go:143-146 | every pinned id is indexed by some pin that carries it |
| ClientPins.Pins.CheckHub | internal/client/pins.go:149-158 | a first hub key is pinned, a changed one is held and taken out of the netmap |
| ClientPins.Pins.CheckPeers | internal/client/pins.go:159-178 | one pass pins unknown names, and lets through or holds every entry as the final pins decide |
| ClientPins.Pins.Apply | internal/client/pins.go:132-189 | memory, disk, dirty flag, netmap and sorted held list after the pin check, for both outcomes of the write |
| ClientPins.PinAllGrows | internal/client/pins.go:147-178 | no pin is replaced and every checked entry's name ends up pinned |
| ClientPins.Pins.AcceptKey | internal/client/pins.go:286-296 | a vouched key replaces the pin, dirty only when it changed something |
| ClientPins.Pins.HoldUnsigned | internal/client/pins.go:302-336 | signed entries enter the pins and pass, the others and an unsigned hub are held |
| ClientPins.Pins.UpdateLock | internal/client/pins.go:220-243 | the answer to an offered record, and the pin, for every combination of pinned, offered and expected |
| ClientPins.Pins.Trust | internal/client/pins.go:192-204 | the offered key of a held entry becomes the pin and is saved, or memory is ahead of the file |
| ClientPins.Pins.SetLock | internal/client/pins.go:274-281 | the device's own record becomes the pin and is saved, or memory is ahead of the file |
| Daemon.BuildConfig | internal/client/netmap.go:338-380 | device peers are the hub and the direct entries in order; any key that does not parse fails the whole configuration |
| Daemon.ConfigPeersFrom | internal/client/netmap.go:338-380 | a key is a device peer if and only if it is that of a direct entry |
| Daemon.SelectHeld | internal/client/daemon.go:841-866 | succeeds if and only if every name is held for a changed key and something is selected; the selection in order, name by name |
| Daemon.SelectedExactly | internal/client/daemon.go:841-866 | the selection is exactly the held entries some name stands for, never an unsigned one |
| Daemon.Daemon.LockStage | internal/client/daemon.go:712-726 | the lock part of the step: record update, failing closed, holding the unsigned |
| Daemon.Daemon.ApplyLocked | internal/client/daemon.go:697-785 | the composed step: pins, disk, held list, offered netmap and device for every outcome of the write and of the device call |
| Daemon.Daemon.PinTrusted | internal/client/daemon.go:812-832 | the entries the names select are pinned and saved one by one up to the first failed write, exactly that many |
| Daemon.Daemon.Reapply | internal/client/daemon.go:684-694 | the last offered netmap takes the same step again, with pins, disk, held list and device as after it; nothing without one |
| TrustRuns.AppliedIsOnDisk | internal/client/pins.go:132-189 | whatever is applied was on disk first, under exactly that id and key, lock on or off |
| TrustRuns.AlwaysClean | internal/client/pins.go:115-204 | over any run of offers, trust steps, own records, failed writes and restarts, memory differs from the file only while marked dirty |
| TrustRuns.HeldIsComplete | internal/client/pins.go:132-204 | every held entry has name, id and key or is the hub, so trusting it keeps the file readable |
| TrustRuns.PinSafety | internal/client/daemon.go:697-785 | with the lock off and no trust step, no name reaches the device with two (id, key) pairs and the hub never with two keys, over any run of offers, own records, failed writes and restarts |
| TrustRuns.AppliedStays | internal/client/pins.go:85-189 | what was applied once stays pinned, in memory and on disk, for the rest of the run |
| TrustRuns.OneKeyAcrossRenames | internal/client/pins.go:143-178 | when no netmap lists an id twice, no id is applied with two keys, also across renames |
| TrustRuns.EnabledMeansSigned | internal/client/pins.go:302-363 | with the lock on, every checked entry and the hub applied carry a valid signature of the pinned set, for every netmap and prior state |
| TrustRuns.IncompleteIsApplied | internal/client/pins.go:302-336 | outside the fail-closed case an entry without name, id or key, or via the hub, is applied if and only if it is offered, whatever its signatures |
| TrustRuns.EnabledAppliedIff | internal/client/pins.go:298-336 | with the lock on, an offered entry is applied if and only if it is such an entry, or signed by the pinned set and as pinned |
| TrustRuns.EnabledHubIff | internal/client/pins.go:149-158 | with the lock on, the hub is applied if and only if it is offered, signed by the pinned set and as pinned |
| TrustRuns.EnabledConfigIff | internal/client/daemon.go:709-766 | with the lock on, a key is a WireGuard peer if and only if it is that of the offered hub, signed and as pinned, or of such a direct entry |
| TrustRuns.UnsignedReachesDevice | internal/client/pins.go:298-301 | for every enabled record, an offered entry with a key, no id and no signature ends up in the configuration |
| TrustRuns.SignatureCovers | internal/client/pins.go:340-363 | such a signature is by a listed key over exactly that id, name and key, and over no other record |
| LockRuns.PinnedRecordStep | internal/client/pins.go:220-243 | the pin changes only to the offered record, and only when that succeeds the pinned one |
| LockRuns.GenerationsRise | internal/lock/record.go:174-206 | within one process, while the pinned set is not empty, the record changes only to one of a greater generation |
| LockRuns.DiskRecordRises | internal/client/pins.go:85-243 | also across restarts, failed writes and trust steps, while no record without signers is pinned: the record on disk changes only to one of a greater generation, and memory is never behind it |
| LockRuns.AppliedRecordStays | internal/client/pins.go:132-243 | a record under which something was applied is never rolled back: every later record, in memory or on disk, restarted or not, is that one or a newer one |
| LockRuns.OnlySignersTurnOff | internal/lock/record.go:174-206 | an enabled lock goes off only by an offered, newer, disabled record that a key of the pinned set signed |
| LockRuns.EndedLineageRestarts | internal/lock/record.go:179-185 | once no signer is listed, a record is adopted if and only if it signs itself, whatever its generation |
| LockRuns.NothingToTrust | internal/client/daemon.go:712-726 | while a signer is expected and no record is pinned, no offer leaves anything held, so no trust step can follow |
| LockRuns.FailClosed | internal/client/daemon.go:712-726 | with a signer expected and no record pinned, no run of offers, trust steps on what was held, and restarts applies anything or changes a pin, in memory or on disk |
| LockRuns.FirstRecordIsExpected | internal/client/pins.go:229-271 | the first record pinned lists the expected key and verifies under it |
| LockRuns.Conservation | internal/client/daemon.go:709-766 | outside the fail-closed case every offered entry is applied, held by the lock or held by the pins, exactly once |
| LockRuns.HeldListComplete | internal/client/daemon.go:735-766 | the held list shows exactly the entries not applied, and the hub exactly when it was offered and not applied |
| LockRuns.SignedNeedsNoTrust | internal/client/pins.go:286-336 | with the lock on and no peer named hub, the pin check holds nothing if and only if no name is signed with two (id, key) pairs |
| LockRuns.SignedHubApplied | internal/client/pins.go:302-336 | with the lock on and no peer named hub, an offered hub is applied if and only if it is signed |
| LockRuns.TrustReleases | internal/client/daemon.go:812-837 | with the lock off, a trusted entry, or the hub, is applied when the same netmap is applied again |
| LockRuns.UpdateIsIdempotent | internal/client/pins.go:220-243 | offering the same record again changes nothing |
| LockRuns.ReloadsIff | internal/client/pins.go:85-112 | a complete file loads back if and only if its record, if any, is signed by a key it lists |
| LockRuns.RestartsIff | internal/client/pins.go:85-122 | after any run, trust steps and own records included, the client starts again if and only if the saved record signs itself |
| LockRuns.SignerlessStrands | internal/lock/record.go:171-181 | a client that adopts and saves a record without signers cannot start again |
| LockRuns.HandOver | internal/client/pins.go:85-112 | a record signed by the old set alone is adopted, and its file is refused at the next start |
| LockRuns.AcceptedButNotReloadable | internal/client/pins.go:85-112 | a concrete instance of that |
| Control.Store.Rotate | internal/control/registry.go:220-273 | key, dropped and new signature rows and generation change together or not at all |
| Control.Store.Delete | internal/control/registry.go:172-201 | the peer and all its signatures go together |
| Control.Store.Set | internal/control/lock.go:120-175 | record and submitted signatures are stored together or not at all, with every reason to refuse |
| Control.SignAllFrame | internal/control/lock.go:274-298 | signing touches the signature table and the generation only |
| NetMapBuild.IndexSignatures | internal/control/lock.go:381-396 | under a peer and key stand exactly its readable rows, in table order |
| NetMapBuild.WrittenIsReadable | internal/control/lock.go:381-396 | what the lock service writes is read back in full and in order |
| NetMapBuild.Build | internal/control/netmap.go:241-395 | the netmap of the three reads: every visible row once, with the signatures of its id and key |
| NetMapBuild.NetPeersFrom | internal/control/netmap.go:301-392 | the entries are exactly the visible rows |
| NetMapBuild.SameVerdict | internal/control/lock.go:400-414 | the server's check and the client's agree on every entry, across the text forms on the wire |
| SignedNetMaps.AlwaysWellStored | internal/control/registry.go:112-273 | every reachable registry holds valid names and parsable keys, and no peer under the hub's id or name |
| SignedNetMaps.NamesStayUnique | internal/control/registry.go:112-150 | in every reachable registry no two peers share a name |
| SignedNetMaps.StoredRecordStep | internal/control/lock.go:120-175 | the stored record changes only to a successor, and a lineage starts only from an admin's device |
| SignedNetMaps.StoredGenerationsRise | internal/control/lock.go:120-175 | over any transactions, while the stored set is not empty, the stored record changes only to a greater generation |
| SignedNetMaps.VouchedStays | internal/control/lock.go:274-298 | a signature that verifies stays and keeps verifying until its peer is rotated, renamed or deleted |
| SignedNetMaps.SignedRowShown | internal/control/netmap.go:241-269 | for any signed row whose peer keeps its key, however the three reads interleave: the entry is signed when the record read lists the signer and the entry shows the name under which the row was last signed, and, alone under its key, only then |
| SignedNetMaps.RotationShownSigned | internal/control/registry.go:215-273 | the same for a signed rotation: its new key is shown, and signed exactly under that condition; without a rename, whenever the record read lists the signer |
| SignedNetMaps.RotationShownIff | internal/control/registry.go:215-273 | not signed again and alone under its key, the rotation is shown signed if and only if the record read still lists the signer and the peer list shows the name it was signed under; a rename after that read does not matter |
| SignedNetMaps.RenamedRotationUnsigned | internal/control/registry.go:112-150 | one device, rotated and then renamed: its new key is shown unsigned |
| SignedNetMaps.RotationRowShown | internal/control/registry.go:220-273 | also across renames the netmap carries the rotation's signature or a later one by the same signer; only a rotation or removal of that peer takes it away |
| SignedNetMaps.OtherOrderShowsUnsigned | internal/control/netmap.go:241-269 | with the signatures read before the rotation and the peers after it, every such rotation would be shown unsigned |
| SignedNetMaps.NewRecordShownWithSignatures | internal/control/lock.go:133-168 | a netmap carrying a new record, even with an older peer list, shows a peer signed with it as signed under the same exact condition |
| SignedNetMaps.HubShownWithSignature | internal/control/lock.go:233-254 | the hub's signature submitted with a record is in every netmap read later: no transaction takes it away |
| SignedNetMaps.UnsignedAgreed | internal/control/lock.go:381-414 | a client that pinned the record holds as unsigned exactly the direct rows, and the hub, the server's check calls unsigned |
| SignedNetMaps.HeldIffUnsigned | internal/client/pins.go:302-336 | such a client holds a listed peer if and only if it is a visible direct one the server calls unsigned |
| SignedNetMaps.BuiltNeedsNoTrust | internal/control/netmap.go:241-395 | a client with the lock on holds nothing for a changed key in any netmap built from any reachable registry |
| SignedNetMaps.RotationHeldIff | internal/control/registry.go:215-273 | end to end, such a client holds a signed rotation only when its record dropped the signer or a rename came between the last signing and the peer read; alone under its key, exactly then |
| Hub.Changed | internal/control/hub.go:132-144 | every call raises the sequence, to at least the stored generation, and leaves a flush pending |
| Hub.Hub.constructor | internal/control/hub.go:87-103 | starts at the stored generation, wake numbers at the clock |
| Hub.Hub.Subscribe | internal/control/hub.go:117-127 | adds one stream with an empty slot |
| Hub.Hub.NotifyChanged | internal/control/hub.go:132-144 | the new sequence and a pending flush, coalesced with one already pending |
| Hub.Hub.Flush | internal/control/hub.go:146-158 | every open stream has its token afterwards |
| Hub.Hub.RequestReach | internal/control/hub.go:234-277 | expired requests go, the target is woken and numbered unless woken within the repeat time, a target without stream changes nothing |
| Hub.Hub.WantSeq | internal/control/hub.go:287-302 | the number of a live request, else 0, forgetting an expired one and an emptied table |
| Hub.Hub.ForgetPeer | internal/control/hub.go:203-214 | presence and every request to or from the peer go, and emptied tables with them |
| Hub.Hub.Sweep | internal/control/hub.go:306-321 | exactly the peers without stream past the grace period go offline, and it notifies exactly when one did |
| SyncStreams.NoLostWakeUp | internal/api/grpc.go:170-230 | in every interleaving a stream behind the latest change has a flush pending, a token, or a new netmap under way that is read after that change |
| SyncStreams.QuietMeansCurrent | internal/api/grpc.go:170-230 | when no flush, token or build is left, every stream has delivered the newest netmap |
| SyncStreams.CanCatchUp | internal/control/hub.go:117-158 | from every such state a stream becomes current by its own steps and the flush alone |
| ReachRequests.AlwaysTidy | internal/control/hub.go:203-302 | every inner request map is non-empty and keyed by a peer with presence, whatever ids are reported |
| ReachRequests.RequestStep | internal/control/hub.go:234-302 | what one event does to one pair's request: nothing, a repeat, a new wake, expiry or clearing |
| ReachRequests.NumbersCountWakes | internal/control/hub.go:234-277 | between restarts the last number is the first plus the wakes issued |
| ReachRequests.ClockAheadIff | internal/control/hub.go:87-103 | the clock at every restart is past the last number if and only if it advanced by at least the wakes issued since the restart before |
| ReachRequests.NumbersNeverReissued | internal/control/hub.go:87-103 | no wake number is issued twice, also across restarts when the clock is past the last one |
| ReachRequests.WakesAreSpaced | internal/control/hub.go:234-277 | two wakes of one pair are at least the repeat time apart unless one side was forgotten in between |
| ReachRequests.AnswersMoveOn | internal/control/hub.go:287-302 | once the answer for a pair has left a number, that number never comes back |
| PathWants.PathTable.Note | internal/client/paths.go:84-126 | the loop over the entries: what each path remembers, and which requests it takes up |
| PathWants.PathTable.Sync | internal/client/paths.go:74-137 | one pass, with the paths of peers no longer probed dropped |
| PathWants.EntryAlone | internal/client/paths.go:84-126 | a peer's path depends on its own entry alone, wherever that stands |
| PathWants.ActsOncePerNumber | internal/client/paths.go:117-125 | fed the hub's answers, a machine acts on a netmap if and only if it is the first to carry that number |
| PathWants.LastNumberAloneActsTwice | internal/client/paths.go:117-125 | shown 5, 6 and 5 again, a path would act on 5 again |
| PolicyCache.ApprovedRoutes | internal/control/routes.go:209-222 | the map holds exactly each peer's approved prefixes that parse, in order |
| PolicyCache.ReadRegistry | internal/control/policysvc.go:245-275 | the compiler's input: every row with its owner's name and approved routes |
| PolicyCache.PolicyService.Look | internal/control/policysvc.go:189-192 | what a caller observes under the mutex, and when it is a hit |
| PolicyCache.PolicyService.Publish | internal/control/policysvc.go:205-211 | kept only while the compiled policy is still the current object |
| PolicyCache.PolicyService.Install | internal/control/policysvc.go:131-133 | the new policy, with nothing cached |
| PolicyCache.CacheIsCurrent | internal/control/policysvc.go:183-213 | in every interleaving the cache holds the current policy under its own hash: a reload is never overwritten by an older one |
| PolicyCache.AnswersAreRecent | internal/control/policysvc.go:183-213 | an answer, cached or not, compiles the policy the caller saw from tables none older than the generation it read |
| PolicyCache.ReadsMakeOneSnapshot | internal/control/policysvc.go:245-262 | while the generation stands, three separate reads amount to one snapshot |
| PolicyCache.AnswersEqualFreshCompiles | internal/control/policysvc.go:183-213 | with no mutation since the generation was read, an answer equals a fresh compilation |
| PolicyCache.FailuresKeepThePolicy | internal/control/policysvc.go:197-202 | an unreadable registry gives the last compilation of the observed policy or the empty one |
| PolicyCache.NoOlderPolicy | internal/control/policysvc.go:109-140 | a call that begins after a reload published never answers with an earlier policy |
| KeyVisibility.Index | internal/control/visibility.go:67-70 | the map holds a row of every key and nothing else |
| KeyVisibility.Lookup.Peers | internal/control/visibility.go:57-74 | the cached table under the same sequence, else a new one kept under it, else the error with the cache untouched |
| KeyVisibility.Lookup.Visible | internal/control/visibility.go:31-45 | true if and only if both keys belong to peers the rule lets talk |
| KeyVisibility.NeverStale | internal/control/visibility.go:57-74 | a lookup that starts after a notification answers from a table holding everything committed before it, in whatever order lookups publish |
| KeyVisibility.CacheNeverStale | internal/control/visibility.go:57-74 | the cache under the present sequence never hides a notified commit |
| Stun.ForeachAttr | internal/stun/stun.go:143-161 | on every input the iteration ends, stays in bounds, and visits exactly the attributes of a well-formed body in order |
| Stun.AttributesRoundTrip | internal/stun/stun.go:143-161 | any list of attributes, of any kinds and lengths, is read back from its padded encoding |
| Stun.Request | internal/stun/stun.go:51-72 | a request header, the SOFTWARE attribute and the fingerprint of the two |
| Stun.ParseBindingRequest | internal/stun/stun.go:88-123 | the id or the error, for every input, by the attributes of the message |
| Stun.RequestRoundTrip | internal/stun/stun.go:51-123 | every request is accepted with its id, whatever the fingerprint function |
| Stun.AnsweredIff | internal/stun/stun.go:88-123 | for every input: accepted if and only if it is a well-formed binding request with the Thawr attribute, a FINGERPRINT last, and the last four-byte one, 0 for none, that of all but the last eight bytes |
| Stun.MarkedAnsweredIff | internal/stun/stun.go:94-122 | a request ending in a four-byte fingerprint is accepted if and only if the Thawr attribute is present and the fingerprint is that of the bytes before it |
| Stun.UnmarkedRefused | internal/stun/stun.go:112-117 | an accepted request ends in a FINGERPRINT attribute and has the Thawr SOFTWARE attribute |
| Stun.Response | internal/stun/stun.go:164-200 | a success header and one masked address; nothing for no address |
| Stun.XorMappedAddress | internal/stun/stun.go:261-287 | unmasks port and address, or refuses a short value or an unknown family |
| Stun.ParseResponse | internal/stun/stun.go:204-259 | the id and address or the error, for every input |
| Stun.ResponseRoundTrip | internal/stun/stun.go:164-287 | for every id, IPv4 or IPv6 address and port the response is read back, the address unmapped, also before trailing bytes |
| Stun.AddressFound | internal/stun/stun.go:222-251 | the masked address is found among any attributes without one, and preferred to MAPPED-ADDRESS wherever that stands |
| Stun.KindsApart | internal/stun/stun.go:88-211 | neither parser takes the other's messages |
| Allocator.NetworkFits | internal/control/allocator.go:36-49 | the block of a prefix contains the address and ends within 32 bits |
| Allocator.NextAddress | internal/control/allocator.go:15-33 | the lowest free host address; exhausted if and only if every host address is used |
| Allocator.IPv6Distinct | internal/control/ipv6.go:15-24 | the derived address contains the IPv4 one, so different peers get different addresses |
| Allocator.Peers.Add | internal/control/enroll.go:154-221 | the new peer gets the lowest free address and the IPv6 one made from it; fails if and only if it is refused for another reason, the id exists or none is free |
| Allocator.Peers.Delete | internal/control/registry.go:172-201 | the peer's addresses are free again |
| Allocator.AddressesStaySound | internal/control/static.go:108-139 | in every reachable table addresses are distinct, in the overlay, none of network, hub and broadcast, and IPv6 ones distinct from each other and from the hub's |
| Allocator.FullIff | internal/control/allocator.go:15-33 | an address is free if and only if there are fewer peers than host addresses: none is ever lost |
| Allocator.FreedIsReused | internal/control/allocator.go:15-33 | a freed address is the next one given when nothing lower is free |
| Systemd.Command | internal/svc/systemd.go:162-168 | the quoted words joined by single spaces |
| Systemd.Split | internal/svc/systemd.go:182-220 | the words of a line, or an open quote, by its bytes in turn |
| Systemd.ReadsWord | internal/svc/systemd.go:172-178 | a quoted word is read as exactly that one word, whatever follows |
| Systemd.AnyLayoutReads | internal/svc/systemd.go:182-220 | quoted words with any blanks between and around them split into exactly those words |
| Systemd.CommandRoundTrip | internal/svc/systemd.go:162-220 | splitting undoes the command for every executable and argument list |
| Systemd.CommandsDiffer | internal/svc/systemd.go:162-178 | no two commands share a line |
| DropWindow.DropWindow.constructor | internal/client/dropwindow.go:26-28 | an empty window with a sixtieth of its span between samples |
| DropWindow.DropWindow.Record | internal/client/dropwindow.go:32-45 | a sample too soon is ignored, else the window keeps it and one sample before the cutoff |
| DropWindow.DropWindow.Delta | internal/client/dropwindow.go:49-67 | the total less that of the base sample, 0 without samples or after a reset |
| DropWindow.BaseIsNewest | internal/client/dropwindow.go:49-67 | the base is the newest sample at least a span old, else the oldest |
| DropWindow.ForgettingNeverShows | internal/client/dropwindow.go:32-67 | at any later time the pruned window answers as the full history of accepted samples would |
| DropWindow.WindowStaysSmall | internal/client/daemon.go:315 | the five-minute window never holds more than 61 samples |

## Left out

- Cryptography, base64, JSON, protobuf and SQL: function values or maps; nothing is proved about them.
- The policy compiler and the path state machine: a compilation stands for its arguments, a path for the request it would act on.
- Display fields of held entries (address, kind, owner) and log lines, audit rows and error texts, which decide nothing.
- Device configuration beyond the peers' keys: allowed addresses, endpoints, keepalive, exit nodes, filters.
- Netmap fields beyond identity, signatures and reach requests: addresses, routes, endpoints, DNS, the IPv6 gating of `Build`.
- Enrolment tokens, name choice and name reservations: an enrolment is a row that is inserted, with its address.
- Permission checks of rename, delete and list calls; rotation, deletion and signing are modelled past them.
- Order.SortSorts: insertion instead of the library's sort; `Order.SortedUnique` makes the difference unobservable.
- Hub.Hub.RequestReach: wake numbers are unbounded, the 64-bit counter that starts at the clock in nanoseconds does not wrap.
- ReachRequests.NumbersNeverReissued: asks that the clock at a restart is past the last number issued; `ReachRequests.ClockAheadIff` says when it is.
- SyncStreams.NoLostWakeUp: a build and the send after it are one unit from start to finish; timers and the network are left out.
- PolicyCache.ReadRegistry: a peer's address columns are passed on as stored; that the source drops one that does not parse is part of the compiler's argument.
- PolicyCache.AnswersEqualFreshCompiles: compiled policies are compared by the arguments of the compiler.
- Stun.Request: the fingerprint function is left abstract, neither the CRC nor the constant it is combined with is modelled.
- Stun.ResponseRoundTrip: addresses without zone.
- Daemon.BuildConfig: a device address or allowed address that does not parse also fails the source's configuration; only keys are modelled.
- NetMapBuild.Build: a receiver that no longer exists and addresses that do not parse are left out, and so are the other fields.
- Allocator.Peers.Add: why a token, a name or a key refuses an enrolment is not modelled, only that it may.
- SignedNetMaps.RotationShownIff: asks that a signature is good for one message; the other direction of `RotationShownSigned` does not.
- LockRuns.DiskRecordRises: runs in which the device sets its own record are left out, since `SetLock` compares nothing.
- Allocator.NetworkFits: setting and clearing host bits is written with division and remainder.
- Allocator.AddressesStaySound: the IPv6 prefix stays the same throughout, as the server insists; filling in addresses of peers enrolled before it had one is left out.
- DropWindow.ForgettingNeverShows: the clock does not run backwards.
- Relay sessions, DNS, backups, the web interface, the command line and the service managers: mostly calls to other systems.
