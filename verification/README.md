# Rolodex DNS in Dafny

Models of the parts of Rolodex DNS that carry state or promise something over whole runs, and proofs about them.
Each module follows one part of the server. Code that computes is modelled by functions; loops and objects that are
updated in place are modelled by methods and classes proved against those functions; protocols with several actors are
state machines whose runs are quantified over.

| file | models |
|---|---|
| `Basics.dfy` | what several modules share |
| `Names.dfy`, `NameText.dfy` | names as label sequences, the canonical order of section 6.1 of RFC 4034, and the text tests that stand for it |
| `NsecChain.dfy` | building the NSEC ring of a zone, and what the ring covers |
| `NegativeAnswers.dfy` | NXDOMAIN, NODATA and closest enclosers |
| `Denial.dfy` | the denial proofs the server sends, against the rules its own validator reads them by |
| `Resign.dfy` | record mutations, marks, the signing pass and queries, interleaved |
| `Overlap.dfy` | two threads signing one zone |
| `Scopes.dfy`, `ScopedAnswers.dfy`, `ScopedCache.dfy` | split-horizon scopes over one text-keyed record cache, what their peers are told, and the answer cache everyone shares |
| `TierChain.dfy` | the `auto` resolution tiers, commitment, recovery probe and upstream cache |
| `Breaker.dfy`, `BreakerRuns.dfy` | forwarder circuit breakers and reprogramming, and whole runs of both |
| `Resolver.dfy` | the iterative resolver's walk and its query budget |
| `Selection.dfy` | server choice, backoff, and blamed roots |
| `Dhcp.dfy` | leases, scope joins, A and PTR rows |
| `Dnsbl.dfy` | blocklist verdicts, background lookups, rotation and the allowlist gate |
| `LocalCache.dfy` | the answer cache in front of the local records |
| `CaTxt.dfy` | CA certificates as framed TXT strings, and their reassembly |
| `TcpFraming.dfy` | length-prefixed DNS over TCP |
| `DriftCheck.dfy` | the translation check |

Names are held root first, so that "beneath" is "has as a prefix". The network, the clock, key material and random
tie-breaks are parameters or nondeterministic steps.

Several promises of the documentation hold only under a condition. The code is modelled as it is; the condition is
proved exact, and a lemma shows a case on the other side of it:

- "An unmarked zone's proofs are true" (README.md:1588-1592) holds over every run from boot without NSEC or RRSIG rows
  written by hand if and only if the zone has a key that can sign or no signed link on disk: the re-sign loop also
  clears the mark of a zone it could not sign (`ServedProofsAreTrueIff`, `KeylessZoneFails`). NSEC and RRSIG rows
  written through the API set no mark; `HandLinkIff` and `HandSignatureIff` say exactly which are harmless,
  `HandLinkBreaks` that every signed zone at rest has one that is not, and `MarkHeals` that a mark mends any. A row is
  written or deleted before its mark is set, and a pass that fails after clearing the mark is re-marked by the loop but
  not when it was started over gRPC: what holds in between is said exactly for any number of rows and any part of the
  chain dropped (`WindowIff`), and for single rows in terms of the row (`ServedWhileUnmarked`, `DeletedWhileUnmarked`,
  `FailedPassIff`). DNSKEY rows are never marked.
- Nothing keeps two passes apart: over runs of two threads a false proof lies ahead if and only if some pass was started
  while the in-progress mark was up (`OverlapIff`, `TwoThreadsServeTruthIff`).
- Proofs for empty non-terminals: the server sends the covering link, its own validator wants the name's own link
  (`NoDataProof`, `EmptyNonTerminalIsRefused`), and accepts NXDOMAIN for every name that is not an owner
  (`ValidatorAcceptsNonOwners`, `AcceptedDenialIsTrue`). An accepted NODATA is true but for ANAME rows and for the
  wildcard the lookup falls back to beside a name with rows of its own (`AcceptedNoDataIsTrue`).
- Re-pushing the forwarder list (README.md:1481-1485) changes no skip decision, in any run, if and only if visible
  forwarders of one label share a breaker to begin with (`RepushInvisibleIff`, `IncoherenceShows`). An open breaker
  lets through not one trial but every exchange that starts before the first of them finishes (`HalfOpenAdmits`,
  `ManyTrials`), and a late reply closes it (`LateReplyCloses`).
- Scope separation rests on the scopes' names. Peers of one scope never notice another, in any run, if and only if
  neither name continues the other past a colon and, case folded, the two differ and neither continues the other past a
  slash (`BlindIff`); `Lab` and `lab` are two scopes and share answers (`CaseIsNotApart`). Removing one record evicts
  every cached key that starts with its scope and name (`CacheAfterRemoval`), and deleting a scope leaves its cached
  answers (`DeletedScopeIsServed`).
- "Returns to tier 0 only through a probe" (README.md:1489): a query that started before a switch and finishes after it
  can undo the switch (`StepKeepsGood`, `OvertakenQueryRecovers`).
- "At most 64 queries" (README.md:1498) counts claims; each truncated reply is one more exchange over TCP on the same
  claim (`Resolve`). Root servers that truncate everything cost two exchanges each: the 13 built-in hints 26, any list
  of more than 32 over 64, and one of 64 or more 128 (`TruncationDoubles`).
- "Backed-off servers last" (README.md:1497) holds within an address family (`BackedOffLastIff`).
- DHCP (README.md:2091-2095): a REQUEST takes over whatever address it names, a DECLINE keeps the join and the rows,
  an expired lease keeps its rows until it is reclaimed, and A rows are removed by name (`BindingSurvivesIff`,
  `StepRegistersIff`, `AddressIsTakenOver`, `ExpiredKeepsRows`). Whatever has gone that way, active leases keep their
  joins and PTR rows (`RunKeepsActive`), and what else the tables hold is said exactly (`AddressesAreWhatStands`,
  `PointersAreWhatStands`, `JoinsAreWhatStands`).
- Blocklist refusals (README.md:1920-1951): a lookup in flight keeps the refusal codes it was sent with
  (`StepKeepsSoundIff`, `LateRefusalBlocks`), and a later refusal with a shorter cooldown shortens the rotation
  (`StepKeepsHeldIff`).
- "Changes take effect immediately" (README.md:1416-1419): a query that read the database before a change can insert
  after the flush (`LateInsertIsStale`), and the handlers that publish TLSA and ACME challenge records do not flush at
  all (`QuietChangeIff`, `QuietChangeIsStale`). `TransparentIff` is the exact condition over every interleaving.
- TCP replies of 65536 bytes and more announce a truncated length (`LongReplyIsLost`).

## Model

| member | source | states |
|---|---|---|
| Names.CanonicalOrderIsTotal | src/dnssec.rs:444-459 | the canonical comparison of names is a total order: reflexive only on equal names, antisymmetric, transitive |
| Names.BeforeIff | src/dnssec.rs:444-459 | one name comes before another if and only if it is an ancestor, or at the first label from the root where they differ its own is a prefix of the other's or has the lower octet where those first differ |
| Names.LowerOctetFirst | src/dnssec.rs:444-459 | the lower octet decides whatever follows it, in the label or beneath |
| Names.ShorterLabelFirst | src/dnssec.rs:444-459 | and a label comes before its continuations |
| Names.Trichotomy | src/dnssec.rs:444-459 | two different names come in exactly one order |
| Names.BeforeTransitive | src/dnssec.rs:444-459 | the order is transitive |
| Names.AncestorFirst | src/dnssec.rs:444-459 | a name sorts before everything beneath it |
| Names.SubtreeIsInterval | src/dnssec.rs:444-459 | a subtree is an interval of the order: what lies between two of its names is in it |
| NameText.TextInZoneIsInZone | src/db.rs:4704-4715 | the suffix test on dotted text holds if and only if the zone's labels end the name's labels |
| NsecChain.BuildNsecChain | src/dnssec.rs:610-654 | the chain lists exactly the apex and the names established by in-zone records, in canonical order, each linked to the next and the last to the first, each with exactly its types and the two of the chain itself |
| NsecChain.ChainUnique | src/dnssec.rs:610-654 | a zone's records admit one chain only |
| NsecChain.ApexFirst | src/dnssec.rs:610-654 | the apex opens the chain |
| NsecChain.ChainTiles | src/dnssec.rs:570-579 | every name is an owner or is covered by exactly one link, and no link covers an owner |
| NsecChain.CoversEmptySubtree | src/dnssec.rs:570-579 | a link that covers one name of a subtree without owners covers all of it |
| NegativeAnswers.PositiveIff | src/dns_server.rs:2155-2391 | an answer is positive if and only if a row of the type or a CNAME is at the name, one of the type at the wildcard beside it, an ANAME leads to an address, or a DNAME is at or beside a proper ancestor |
| NegativeAnswers.PositiveNeverDenied | src/dns_server.rs:1648-1758 | a name answered positively for one type, directly or by wildcard, is NXDOMAIN for none |
| NegativeAnswers.DenialIsDownwardClosed | src/dns_server.rs:1648-1758 | NXDOMAIN for a name and any type is NXDOMAIN for everything beneath it and every type |
| NegativeAnswers.DeniedExactlyWhenNothingThere | src/dns_server.rs:1648-1758 | NXDOMAIN if and only if no DNAME is above and no record is at the name, beneath it or at the wildcard beside it |
| NegativeAnswers.FindClosestEncloser | src/dns_server.rs:1596-1623 | the upward walk finds the closest encloser |
| NegativeAnswers.ClosestEncloserIsClosest | src/dns_server.rs:1596-1623 | it is an occupied proper ancestor in the zone and no longer ancestor is occupied |
| Denial.StoredTiles | src/dns_server.rs:1458-1587 | over a signed zone the server's two searches find, for every name, its own link or the one link over it |
| Denial.DenialProof | src/dns_server.rs:1566-1583 | every link sent is stored and its owner is signed |
| Denial.SentIsChosen | src/dns_server.rs:1458-1587 | in a zone signed throughout nothing is withheld for want of a signature, and exactly the links searched for go out |
| Denial.ProofIsTrue | src/dns_server.rs:1458-1587 | no link of a served proof covers a name that holds a record, and its type list is the owner's |
| Denial.NxDomainProof | src/dns_server.rs:1458-1587 | in a zone signed throughout an absent name's proof is withheld if and only if the wildcard at its closest encloser is an owner; otherwise it has the link over the name and the link over that wildcard, and the validator accepts it |
| Denial.WithheldOnlyBelowAWildcard | src/dns_server.rs:1458-1587 | a proof is withheld only for names two or more labels below the encloser |
| Denial.WildcardNoDataProof | src/dns_server.rs:1458-1587 | wildcard NODATA carries the wildcard's own link and the link over the name, accepted if and only if the wildcard lacks the type |
| Denial.WildcardLinksAccepted | src/dnssec_validate.rs:777-859 | the validator accepts a wildcard's link with a covering link if and only if the wildcard does not claim the type |
| Denial.NoDataProof | src/dnssec_validate.rs:777-859 | NODATA at an existing name carries one link, accepted if and only if it is the name's own without the type or a CNAME, or is the wildcard beside it |
| Denial.HonestNoDataIff | src/dnssec_validate.rs:777-859 | read off the rows: the NODATA proof of a name with records is accepted if and only if it has no CNAME row and no row of the type, a wildcard match's if and only if the wildcard has none |
| Denial.ValidatorAcceptsNonOwners | src/dnssec_validate.rs:725-774 | whatever links of the chain a client is sent, the validator accepts NXDOMAIN if and only if the name is no owner and the chain's links for it and for the wildcard beside it are among them |
| Denial.AcceptedDenialIsTrue | src/dnssec_validate.rs:725-774 | an NXDOMAIN accepted from any links of the chain is the server's own verdict if and only if no owner lies beneath the name and no wildcard sits beside it |
| Denial.NoDataComesFrom | src/dnssec_validate.rs:777-859 | a NODATA accepted from any links of the chain rests on the name's own link or on that of the wildcard beside it, without the type |
| Denial.AcceptedNoDataIsTrue | src/dnssec_validate.rs:777-859 | so the name exists, and a row of the type answers for it only by ANAME or by the wildcard beside a name with rows of its own |
| Denial.StoredLinkIsTrue | src/dnssec.rs:610-654 | no stored link of a signed zone covers a record, and each lists exactly its owner's types |
| Denial.EmptyNonTerminalIsRefused | src/dnssec_validate.rs:777-859 | a concrete signed zone whose NODATA proof for an empty non-terminal the validator refuses |
| Resign.TrueProofsIff | src/dns_server.rs:1458-1587 | for any zone, whatever is stored and under way, every proof any query is sent is true of the records if and only if every NSEC row stored and signed is |
| Resign.RightIsTrue | src/dnssec.rs:610-654 | a link of the chain of the content, with or without the others, spans no record and lists its owner's types |
| Resign.StepKeepsInv | src/zone_signer.rs:86-340 | with a usable key every step of mutation, marking, signing or failing, and every true NSEC row and any RRSIG row written by hand, keeps the invariant that ties links to content, marks and the pass |
| Resign.RunKeepsInv | src/dns_server.rs:2889-2955 | so does every run |
| Resign.ServedProofsAreTrue | src/dns_server.rs:2889-2955 | in every run from boot of a zone with a usable key, whenever proofs are served with no row written and unmarked and no failed pass pending, every proof is true of the records at that moment |
| Resign.SlowQueryIsTrue | src/dns_server.rs:1375-1587 | a query that found the zone unmarked and reads the rest later, while anything else happens, comes across no link that was not true of the records at some moment since |
| Resign.KeylessZoneFails | src/dns_server.rs:2930-2937 | for every zone loaded without a usable key and with a signed link there is a run, through the loop's clearing of the mark, that ends serving a false proof |
| Resign.ServedProofsAreTrueIff | src/dns_server.rs:2919-2955 | so, without rows written by hand, the promise holds of a loaded zone over all runs if and only if it has a usable key or no signed link |
| Resign.HandLinkIff | src/db.rs:4752-4757 | an NSEC row written by hand into a truthful zone leaves it so if and only if the row is true or its owner is not signed |
| Resign.HandSignatureIff | src/dns_server.rs:1566-1583 | an RRSIG row does if and only if every NSEC row it brings into service is true |
| Resign.HandLinkBreaks | src/db.rs:4752-4757 | every signed zone at rest is made to lie by one NSEC row, and stays unmarked |
| Resign.MarkHeals | src/dns_server.rs:2898-2904 | whatever row is written by hand, a mark after it restores the invariant |
| Resign.WindowIff | src/zone_signer.rs:217-262 | from true links, after any run that publishes none, with any number of rows written and deleted and any part of the old chain and its signatures dropped, proofs are true if and only if each link still stored and signed covers no row and its owner's types are as they were |
| Resign.FreshIsTrue | src/dns_server.rs:1458-1587 | when links and content agree every stored link and every proof is true of the records |
| Resign.ServedWhileUnmarked | src/db.rs:1191-1215 | between a row's insertion and its mark, proofs are true if and only if the row adds neither a name nor a type; a DNSKEY row gets no mark |
| Resign.DeletedWhileUnmarked | src/db.rs:1221-1281 | between a deletion and its mark, proofs are true if and only if all rows of the name went with its link, or the type was ANAME or not there |
| Resign.FailedRun | src/grpc_service.rs:2094-2142 | a manual pass that fails after clearing the mark is a run of the machine |
| Resign.FailedPassIff | src/grpc_service.rs:2094-2142 | the zone it leaves behind, unmarked and served, tells the truth if and only if the new row added neither a name nor a type |
| Resign.PublishingIsTrue | src/zone_signer.rs:240-262 | a pass that fails once it publishes, with nothing unaccounted for, leaves only true proofs |
| Resign.ZoneStore.constructor | src/db.rs:1140-1150 | a signed zone is loaded with the rows and the chain on disk, marked, so it serves no proof before its first pass |
| Resign.ZoneStore.DropOldChain | src/zone_signer.rs:86-340 | no link or signature survives |
| Resign.ZoneStore.PublishChain | src/zone_signer.rs:86-340 | the links are the chain and exactly its owners are signed |
| Resign.ZoneStore.SignZone | src/zone_signer.rs:86-340 | with a key the zone ends unmarked with the chain of exactly its records; without one nothing but the in-progress mark changes |
| Resign.ZoneStore.ResignOnce | src/dns_server.rs:2919-2955 | one round of the loop: the zone current and served, or unmarked and otherwise as it was |
| Resign.WholeChainIsFresh | src/zone_signer.rs:86-340 | a complete chain with signed owners is what the proofs' truth needs |
| Overlap.TurnIsSolo | src/zone_signer.rs:86-340 | as long as no pass starts beside another, two threads keep the invariant of one |
| Overlap.SoloRunNeverLies | src/dns_server.rs:2919-2955 | and no run of theirs ends served at rest with a false proof |
| Overlap.CatchesUpAndLies | src/zone_signer.rs:86-340 | once a pass has started beside another, wherever that one stands, some run without a further overlap, in which a pass drops, publishes and signs its whole chain and ends, leads to a false signed proof served at rest |
| Overlap.OverlapIff | src/db.rs:1435-1442 | so a turn of threads that have not overlapped opens the way to a false proof if and only if it starts a pass while the in-progress mark is up |
| Overlap.TwoThreadsServeTruthIff | src/db.rs:1435-1442 | over every run of two threads from boot, a false proof lies ahead of some moment if and only if some pass was started so |
| Scopes.ScopesDoNotInterfere | src/dns_server.rs:1969-2126 | two tables with the same rows for a scope, and otherwise only isolated scopes, give the scope the same answer to every query that reaches them, its managed zones read from each table |
| Scopes.ResolveAgrees | src/dns_server.rs:1969-2110 | record caches that agree on what a scope's prefix tests read give the same answer at every stage after the answer cache |
| ScopedAnswers.AnsweredFromOwnRows | src/dns_server.rs:1969-2042 | among isolated scopes a peer is given exactly the scope's own rows of the type, else those behind an ANAME, else a CNAME, else those of the nearest DNAME above, each at the name or the wildcard beside it, and is given rows if and only if one of these exists |
| ScopedAnswers.DeniedFromOwnRows | src/dns_server.rs:2044-2126 | with none of them: NXDOMAIN if and only if another scope owns the TLD or the name is the scope's and no row is at it, beneath it or at its wildcard; NODATA if and only if it is the scope's and there is one; otherwise not the scope's to say |
| ScopedAnswers.WildcardNameIs | src/db.rs:4685-4690 | the text cut used for wildcards puts a star for the first label of every name of two labels or more |
| ScopedAnswers.ZoneOfIs | src/db.rs:2317-2334 | the text cut used for zones leaves the last two labels |
| Scopes.KeyLeaks | src/db.rs:1605-1623 | a key of another scope that reads as one of this scope's turns NXDOMAIN into NODATA |
| Scopes.Leaks | src/db.rs:4615-4625 | scope names that are not isolated have such a record, whichever continues the other |
| Scopes.CacheAfterRemoval | src/db.rs:2127-2166 | after a removal the cache equals the table if and only if no surviving key starts with the removed scope and name |
| ScopedCache.ScopedRunsDoNotInterfere | src/dns_server.rs:1922-2126 | over every run of peers asking, entries expiring, rows changing and scopes being deleted, a peer is answered as if no other scope had rows and no other peer had asked, when the others are isolated from its scope and apart from it |
| ScopedCache.LowerIs | src/dns_cache.rs:414-424 | folding maps the 26 capital letters to their own and nothing else |
| ScopedCache.ApartSlots | src/dns_cache.rs:414-424 | scopes that are apart never share an entry of the answer cache, whatever the names |
| ScopedCache.SharedSlot | src/dns_cache.rs:414-424 | scopes that are not apart do, under two names found from theirs |
| ScopedCache.BlindIff | src/dns_server.rs:1926-1968 | peers of one scope never notice another over any run of the two if and only if their names are isolated and apart |
| ScopedCache.CaseIsNotApart | src/dns_cache.rs:414-424 | two scopes that differ in case share answers |
| ScopedCache.ScopedCacheIsTransparent | src/dns_server.rs:1926-1968 | over every run in which changes flush, with scopes pairwise apart, each reply is the one the tables give |
| ScopedCache.AskingAgainIsTheSame | src/dns_server.rs:1936-1968 | asking changes no answer to the same question: what is cached is served as it is |
| ScopedCache.ExpiredIsReadAgain | src/dns_cache.rs:130-161 | once it has expired the tables answer |
| ScopedCache.DeletedScopeIsServed | src/grpc_service.rs:867-900 | for every row, a run in which its scope is deleted and the answer cache goes on giving it out |
| TierChain.RespondIff | src/dns_server.rs:3177-3258 | a tier responds if and only if the roots withhold or say NOERROR or NXDOMAIN, or a forwarder says one of those; Bogus and Indeterminate become an empty SERVFAIL |
| TierChain.AutoResolve | src/dns_server.rs:2796-2829 | tiers are asked in order from the committed one up to the first that gives a response, and no further; a withheld verdict at the roots asks no other tier, unreachable roots do |
| TierChain.StreakIsRun | src/dns_server.rs:3093-3124 | the streak counter is the length of the current run of deviating queries |
| TierChain.DegradesExactlyAfterGrace | src/dns_server.rs:3093-3124 | with a configured grace of g >= 1 the committed tier worsens at a query if and only if it and the g - 1 before it all deviated from the same committed tier; with 0 at every deviation |
| TierChain.CachedIsLegitimate | src/dns_server.rs:3557-3570 | a message that passes the cache's test of rcode and answers is what its tier was given, and from the roots only under a verdict that does not withhold |
| TierChain.NeverCachesWithheld | src/dns_server.rs:3150-3209 | in every run every cached answer is the very one its tier was given, none from a Bogus or Indeterminate verdict, and a query goes on only past tiers that gave no response |
| TierChain.WithheldEndsTheQuery | src/dns_server.rs:3177-3196 | a query given a withholding verdict has asked the roots only and answers SERVFAIL with nothing in it |
| TierChain.QueryIsAutoResolve | src/dns_server.rs:2796-2829 | a query undisturbed in the machine ends where the loop over the tiers does, with what that gives |
| TierChain.RunsStayInRange | src/dns_server.rs:2796-2829 | in every run only the four tiers are asked and committed to |
| TierChain.ProbeCommits | src/dns_server.rs:2975-3067 | a successful probe of any better tier commits it at once and empties the cache |
| TierChain.StepKeepsGood | src/dns_server.rs:974-979 | the cache and the notes stay of the current switch if and only if a switch overtakes no query |
| TierChain.CleanRunsKeepGood | src/dns_server.rs:974-979 | over runs of such switches every cached answer is younger than the last switch |
| TierChain.RecoveryIsProbed | src/dns_server.rs:2975-3067 | over such runs the tier improves only by a probe, and to tier 0 only by a root answer that validates |
| TierChain.OvertakenQueryRecovers | src/dns_server.rs:3093-3124 | a run with an overtaken query that reaches tier 0 without a probe and caches an answer from before the switch |
| Breaker.RefusesExactlyAfterThreeFailures | src/forwarder.rs:156-191 | over every history a breaker refuses if and only if the last three exchanges failed in transport and the last is under 30 seconds old |
| Breaker.TrialDecides | src/forwarder.rs:156-191 | after the cooldown the breaker is usable, and a result decides the next 30 seconds |
| Breaker.Health.IsUsable | src/forwarder.rs:169-172 | reads the breaker as the history does |
| Breaker.Health.RecordSuccess | src/forwarder.rs:177-180 | closes the breaker |
| Breaker.Health.RecordFailure | src/forwarder.rs:183-191 | counts, and opens from the third on |
| Breaker.TierForward | src/dns_server.rs:3227-3258 | the first usable forwarder with a definitive reply wins; exactly the usable ones up to it are recorded, by whether a reply arrived |
| Breaker.ForwardQuery | src/dns_server.rs:3486-3517 | the first forwarder that replies wins whatever its breaker says; every one tried is recorded, shared breakers once per try |
| Breaker.RepushIsIdentityIffCoherent | src/forwarder.rs:459-465 | re-pushing an identical list gives back the same list if and only if equal identities already share a breaker |
| Breaker.ByPreference | src/forwarder.rs:475-496 | the three tiers hold each identity once, where it first appeared, in order |
| Breaker.RepushKeepsTiers | src/forwarder.rs:459-496 | re-pushing any of the lists leaves every tier the same forwarders and breakers at that moment, repeated labels or not |
| Breaker.ForwarderTable.constructor | src/dns_server.rs:1032-1039 | the tiers are those of the three lists |
| Breaker.ForwarderTable.SetForwarders | src/dns_server.rs:988-1039 | reprogramming touches no breaker, and an identical re-push leaves all three tiers the same objects |
| BreakerRuns.AutoQueryIsTierForward | src/dns_server.rs:3227-3258 | an `auto` query undisturbed passes over open breakers, ends at the first definitive reply, and records exactly the forwarders asked, by whether a reply came |
| BreakerRuns.UnaskedReplyIsIgnored | src/dns_server.rs:3227-3258 | a reply nobody waits for changes nothing |
| BreakerRuns.CooldownPasses | src/forwarder.rs:164-172 | with time alone a forwarder is skipped until its cooldown is over and no longer |
| BreakerRuns.ProgrammedIsWellFormed | src/forwarder.rs:302-340 | lists of forwarders each with a breaker of its own are what the run results start from |
| BreakerRuns.RunAlike | src/dns_server.rs:3227-3258 | under coherence a run with re-pushes and the run without them differ in nothing but breakers no tier can see |
| BreakerRuns.ThreeRounds | src/dns_server.rs:3486-3517 | three forward queries answered at one place open the breaker of an earlier forwarder if and only if the two do not share it |
| BreakerRuns.IncoherenceShows | src/forwarder.rs:459-465 | wherever two visible forwarders of one label have two breakers, a re-push and those queries change a skip decision |
| BreakerRuns.RepushInvisibleIff | src/forwarder.rs:459-496 | re-pushes anywhere in any run change no decision if and only if visible forwarders of one label share a breaker |
| BreakerRuns.AdmittedIff | src/forwarder.rs:169-191 | of overlapping exchanges one is refused if and only if the last three to finish failed, the last within 30 seconds |
| BreakerRuns.HalfOpenAdmits | src/forwarder.rs:164-172 | until something next finishes, an open breaker lets through every exchange that starts after 30 seconds and none before |
| BreakerRuns.ManyTrials | src/forwarder.rs:164-172 | any number of trials at once |
| BreakerRuns.LateReplyCloses | src/forwarder.rs:177-180 | a reply that arrives after the breaker opened closes it, cooldown or not |
| Resolver.Lookup.constructor | src/resolver.rs:668-697 | a lookup starts with its whole budget, 64 or 96 |
| Resolver.Lookup.QueryServers | src/resolver.rs:1898-1941 | every packet is paid for first; it fails only with the budget spent or every server tried, and otherwise gives a reply that came |
| Resolver.Lookup.EstablishTrust | src/resolver.rs:1330-1530 | free unless validating; succeeds only with at most four hidden cuts, one check that came out well for each and one for the step, and fails only for a reason |
| Resolver.Lookup.Take | src/resolver.rs:988-1002 | a step becomes part of the answer if and only if it is trusted, and brings its checks |
| Resolver.Lookup.Conclude | src/resolver.rs:983-1108 | an answer or a negative ends resolved when trusted and withheld when not; never withheld without validation |
| Resolver.Lookup.Follow | src/resolver.rs:1017-1073 | an alias seen before is a loop, the seventeenth too many; any other is followed once trusted, and no target twice |
| Resolver.Lookup.Delegate | src/resolver.rs:1155-1208 | a referral's glue, else its resolved servers, and trust established before going on |
| Resolver.Lookup.TrustRoot | src/resolver.rs:1221-1272 | the root's keys are checked unless at hand; bad ones withhold, unreachable ones are an error |
| Resolver.Lookup.ResolveNsAddresses | src/resolver.rs:1854-1891 | resolving glue-less servers stays within the same budget, asks for at most four, and adds nothing to what the answer rests on |
| Resolver.Lookup.ResolveInner | src/resolver.rs:797-926 | terminates in depth, CNAME trail and budget; resolved only by a trusted final step or a cache, withheld only for a reason, each failure meaning what it says |
| Resolver.Lookup.Walk | src/resolver.rs:954-1214 | the same; a loop error cannot occur since every accepted referral is strictly deeper, and too many referrals only for names of 30 labels or more |
| Resolver.Resolve | src/resolver.rs:668-697 | for any behaviour of the servers a lookup ends with at most 64 claims, 96 validating; exchanges are claims plus truncated replies; resolved and validating means a final step and a check of its own for every step, hidden cut and from cold every root key set, or a cache; withheld only when validating and for a reason; an honest world resolves every name outside arpa |
| Resolver.TruncationDoubles | src/resolver.rs:1898-1941 | n root servers that truncate everything make two exchanges each as far as the budget goes, so the limit is exceeded if and only if n is more than half of it |
| Selection.PicksStayBalanced | src/resolver.rs:2122-2154 | with fixed latencies, after any number of least-score picks no server leads another by more than one of its own queries |
| Selection.ColdStartBalances | src/resolver.rs:2122-2154 | so from a cold start, after any picks, hits times latency of two servers differ by at most one query of the busier |
| Selection.SomeoneLeads | src/resolver.rs:2122-2137 | among any servers there is one to pick |
| Selection.NobodyStarves | src/resolver.rs:2122-2154 | once any server has been picked twice every server has been picked |
| Selection.Rank | src/resolver.rs:2122-2137 | a permutation, healthy before backed off, then by score |
| Selection.OrderServers | src/resolver.rs:2085-2094 | a permutation, IPv4 before IPv6, each family ranked |
| Selection.BackedOffLastIff | src/resolver.rs:2085-2094 | all backed-off servers come last if and only if no IPv4 one is backed off while an IPv6 one is healthy |
| Selection.PenaltyIsDoubling | src/resolver.rs:1972-2066 | the k-th failure waits min(300, 2^k) seconds and the k-th offence min(24 h, 15 min doubled k-1 times), for every k |
| Selection.HealthRemembers | src/resolver.rs:1951-2066 | over every history failures are those since the last answer and the k-th holds the server back min(300, 2^k) seconds from it; offences are those since the last validated answer, and a root is out for the doubled penalty from its latest offence |
| Selection.UsableRoots | src/resolver.rs:2025-2042 | never empty for a non-empty list; otherwise exactly the unblamed ones, unless all are blamed |
| Dhcp.ScanPool | src/db.rs:4340-4361 | the first address of the range free in its scope, or none if and only if all are taken |
| Dhcp.AllocateIp | src/db.rs:4301-4364 | nothing is found if and only if every pool of the scope is exhausted |
| Dhcp.Discover | src/dhcp.rs:195-248 | a client with a lease is offered its address as long as its scope has a pool; another gets a free one, or nothing if and only if every pool is exhausted |
| Dhcp.GrantedIff | src/dhcp.rs:251-300 | a request is granted if and only if it names an address and the client has a lease or a pool has the address: in that lease's scope, else that of the first such pool |
| Dhcp.RunKeepsOneHolder | src/db.rs:4178-4195 | in every run no address has two leases |
| Dhcp.ReclaimedExactlyWhenDue | src/db.rs:4373-4410 | active, expired or released, a lease is reclaimed if and only if its term and the reclaim timeout are over |
| Dhcp.BindingSurvivesIff | src/db.rs:4178-4195 | a step unbinds a client if and only if it is its own request elsewhere, another's request for its address, a delete, or the reclaim |
| Dhcp.BindingIsSticky | src/db.rs:4301-4312 | through any run without those, released, declined or expired, the client keeps its address |
| Dhcp.RequestRegistersIff | src/dhcp.rs:251-344 | a request keeps joins and rows exact if and only if every active lease it replaces had the same address and row |
| Dhcp.ReleaseRegistersIff | src/dhcp.rs:347-370 | a release does if and only if no other active lease has the name in the scope |
| Dhcp.DropRegistersIff | src/dhcp.rs:372-380 | a decline or an administrative delete does if and only if the lease was not active |
| Dhcp.SweepAges | src/db.rs:4373-4410 | a sweep keeps a lease if and only if term and timeout are not both over, and expires an active one if and only if its term is |
| Dhcp.SweepRegistersIff | src/dhcp.rs:104-124 | a sweep does if and only if no lease expires without being reclaimed and no swept lease shares its name with an active survivor |
| Dhcp.StepRegistersIff | src/dhcp.rs:126-192 | joins, each to its lease's scope and until its end, for exactly the active leases, A and PTR for exactly those with a host name: kept by a step if and only if it passes its test |
| Dhcp.RunRegistersIff | src/dhcp.rs:126-192 | every prefix of a run leaves the tables exact if and only if every step passed |
| Dhcp.RunKeepsActive | src/dhcp.rs:126-192 | in every run whatsoever each active lease has its own join and, with a host name, its own PTR row |
| Dhcp.AddressesAreWhatStands | src/dhcp.rs:386-476 | in every run an A row is there if and only if some granted request wrote it and no lease of its name in its scope was released or swept since |
| Dhcp.PointersAreWhatStands | src/dhcp.rs:386-476 | a PTR row if and only if some granted request wrote it and no named lease of its address in its scope was released or swept since |
| Dhcp.JoinsAreWhatStands | src/dhcp.rs:251-370 | a join if and only if it is that of the last grant of the address, whose lease was not released or swept since |
| Dhcp.InScopeWhileLeased | src/db.rs:2054-2064 | while the tables are exact an address is in a scope if and only if an active lease for it there is still running |
| Dhcp.ExpiredKeepsRows | src/db.rs:4373-4410 | a request and a sweep after which the expired lease still has its A, its PTR and its join on file |
| Dhcp.AddressIsTakenOver | src/db.rs:4178-4195 | two requests after which the first client has lost its address and its name still points there |
| Dhcp.Service.constructor | src/db.rs:897-906 | empty tables |
| Dhcp.Service.HandleRequest | src/dhcp.rs:251-344 | one Request step; acknowledged if and only if granted |
| Dhcp.Service.HandleRelease | src/dhcp.rs:347-370 | one Release step |
| Dhcp.Service.HandleDecline | src/dhcp.rs:372-380 | one Decline step: nothing but the lease's state |
| Dhcp.Service.Register | src/dhcp.rs:386-430 | adds the A and the PTR |
| Dhcp.Service.Cleanup | src/dhcp.rs:436-476 | removes the A rows of the name, the PTR of the address, and the join |
| Dhcp.Service.SweepLeases | src/db.rs:4373-4410 | deletes and returns exactly the leases past reclaim, and ages the rest |
| Dhcp.Service.CleanupAll | src/dhcp.rs:109-116 | cleaning up one by one, in any order, is removing all their rows and joins at once |
| Dhcp.Service.RunSweep | src/dhcp.rs:104-124 | one Sweep step |
| Dnsbl.Allowlisted | src/db.rs:2834-2854 | exempt if and only if an entry is the name or one of its ancestors below the root |
| Dnsbl.ClassifyIff | src/dnsbl.rs:290-306 | a reply is a refusal if and only if some code in it is one, a listing if and only if it has codes and none is |
| Dnsbl.ListingLasts | src/dnsbl.rs:717-731 | a listing blocks for its TTL and 600 seconds more, and no longer unless another provider's does |
| Dnsbl.CleanAnswerLasts | src/dnsbl.rs:828-840 | after a clean answer its provider is asked again once 300 seconds are over, and not before |
| Dnsbl.AskLooksUp | src/dnsbl.rs:754-784 | asking sends a lookup to every enabled provider in rotation with nothing live to say, unless one lists the name |
| Dnsbl.AskSendsNoMore | src/dnsbl.rs:754-784 | and none for another name, to a rotated-out provider, or while off or unreachable |
| Dnsbl.SwitchesDo | src/dnsbl.rs:894-899 | after a flush or a reconfiguration nothing is blocked and everyone is in rotation; off or unreachable nothing is consulted |
| Dnsbl.RefusalIsInert | src/dnsbl.rs:793-855 | a refusal or an error leaves the cache, and every verdict at every later time, unchanged |
| Dnsbl.StepKeepsSoundIff | src/dnsbl.rs:290-306 | no cached listing is a refusal by its provider's codes, kept by a step if and only if the step reads no answer by outdated codes |
| Dnsbl.BlockedIsListed | src/dnsbl.rs:754-784 | while that holds, a blocked name has an answer that an enabled provider's own codes call a listing |
| Dnsbl.RefusalNeverBlocks | src/dnsbl.rs:793-899 | so in every run that changes no codes under a lookup, whatever is blocked is listed |
| Dnsbl.LateRefusalBlocks | src/dnsbl.rs:894-899 | for every name, zone and code, a run in which a reconfiguration under a lookup lets a refusal block |
| Dnsbl.StepKeepsHeldIff | src/dnsbl.rs:1008-1034 | a rotated-out provider stays out through a step if and only if it is no flush, no reconfiguration and no refusal with a shorter cooldown |
| Dnsbl.NoLookupWhileOut | src/dnsbl.rs:754-784 | through any run without those, no lookup goes to the provider before its cooldown is over |
| Dnsbl.RefusalHolds | src/dnsbl.rs:1008-1034 | a refusal puts its provider out for the whole cooldown |
| Dnsbl.Checker.Cached | src/dnsbl.rs:717-731 | live, stale or missing; only entries that count for nothing are evicted |
| Dnsbl.Checker.OutOfRotation | src/dnsbl.rs:657-668 | out exactly while the cooldown runs; only lapsed entries are evicted |
| Dnsbl.Checker.Consult | src/dnsbl.rs:754-777 | finds a live listing, a stale one, and exactly the enabled providers without a live verdict |
| Dnsbl.Checker.Send | src/dnsbl.rs:778-784 | sends to exactly the ones in rotation, once per key, with the settings of the moment |
| Dnsbl.Checker.IsNameListed | src/dnsbl.rs:867-889 | blocks if and only if an enabled provider's listing is within its TTL or the ten minutes after, rotation or not; one Ask step |
| Dnsbl.Checker.Complete | src/dnsbl.rs:813-853 | one Land step |
| Dnsbl.Checker.Gate | src/dns_server.rs:2510-2532 | an exempt name is not blocked and changes nothing, so it is looked up nowhere; otherwise blocked by a local entry or a provider |
| LocalCache.ExactBeforeWildcard | src/db.rs:1642-1690 | a name's own rows win; the wildcard's answer only for a name without any that has a parent |
| LocalCache.TransparentIff | src/dns_server.rs:2155-2215 | over every interleaving of any number of queries with changes, flushes and insertions, the cache changes no local answer if and only if no answer still cached was read from rows that have since come to say something else |
| LocalCache.UndisturbedIsTransparent | src/dns_server.rs:2155-2215 | which holds when every answer still cached was read after the last change |
| LocalCache.FlushRestores | src/dns_cache.rs:328-336 | after a flush every local answer is the database's |
| LocalCache.NegativeNeverShadows | src/dns_server.rs:2555-2575 | a cached negative never hides a local record |
| LocalCache.NegativeIsTold | src/dns_server.rs:2555-2575 | a name without local records is told its cached negative until that expires or is flushed, and goes upstream otherwise |
| LocalCache.FlushingRunsAreTransparent | src/grpc_service.rs:482-589 | over every run of whole queries and changes that flush, each answer is that of a server without the cache |
| LocalCache.QuietChangeIff | src/grpc_service.rs:2148-2187 | a change without a flush is harmless if and only if it changes no cached answer |
| LocalCache.QuietChangeIsStale | src/acme.rs:32-44 | for every other: ask, change, ask again, and the old answer comes back with nothing running beside |
| LocalCache.LateInsertIsStale | src/dns_server.rs:2191-2214 | for every change of a cached answer, a run whose late insertion serves the old one after the flush |
| LocalCache.DnsCache.AnswerLocally | src/dns_server.rs:2155-2215 | answers as the database does and keeps doing so |
| LocalCache.DnsCache.FlushAll | src/dns_cache.rs:328-336 | empties both maps |
| CaTxt.Publish | src/ca.rs:210-225 | one framed string per piece, numbered from 1 |
| CaTxt.FlattenPieces | src/ca.rs:210-214 | the pieces make up the text, for every size |
| CaTxt.ParseFrame | extension/ca_dns.js:333-338 | reading a frame gives back its kind, place, total and data |
| CaTxt.ParsedIsInRange | extension/ca_dns.js:333-338 | whatever string is read, a chunk's place is from 1 to its total and no part of it holds a colon |
| CaTxt.GatheredIsPublished | extension/ca_dns.js:331-341 | whatever the order, what is gathered is part of what was published and misses nothing received |
| CaTxt.Collect | extension/ca_dns.js:331-341 | the first total and the last data of each place |
| CaTxt.Reassemble | extension/ca_dns.js:330-353 | fails if and only if some kind is incomplete; otherwise joins every kind's places in order |
| CaTxt.Join | extension/ca_dns.js:348-349 | the places 1 to total in order |
| CaTxt.RoundTrip | extension/ca_dns.js:330-353 | for all texts, sizes and any arrangement, repetition and mix with foreign strings, exactly the non-empty texts come back |
| CaTxt.FramesFit | src/ca.rs:36-38 | every piece but the last has 180 characters, and no published string is over 255 |
| TcpFraming.Serve | benches/dns_perf.rs:655-674 | writes the framed successful replies to the whole frames of the stream, in order |
| TcpFraming.MessagesOfFramed | benches/dns_perf.rs:656-664 | reading undoes framing, whatever incomplete frame follows |
| TcpFraming.ClientReadsReplies | benches/dns_perf.rs:655-674 | a client reads back exactly the successful replies in request order |
| TcpFraming.LongReplyIsLost | benches/dns_perf.rs:665-666 | and only if every one is under 65536 bytes |
| DriftCheck.Sections | translation-drift-check.py:26-43 | the counts are the gaps between out-of-fence headings |
| DriftCheck.HeadingIff | translation-drift-check.py:26-43 | a heading is one to four hashes and a space, a fence three backquotes |
| DriftCheck.GapsInjective | translation-drift-check.py:26-43 | the counts determine where the headings are |
| DriftCheck.GapsSize | translation-drift-check.py:26-43 | headings and counted lines are all the lines |
| DriftCheck.LayoutIsCounts | translation-drift-check.py:96-107 | equal counts if and only if equal line totals and headings on the same lines |
| DriftCheck.SectionsMatch | translation-drift-check.py:96-107 | the comparison passes if and only if so |
| DriftCheck.MissingIdentifiers | translation-drift-check.py:70-80 | nothing is missing if and only if English's multiset is contained in the translation's |
| DriftCheck.CheckDocument | translation-drift-check.py:90-117 | fails exactly the translations that are missing or differ |
| DriftCheck.CheckAll | translation-drift-check.py:83-128 | returns 0 if and only if every document and translation exists and passes both |

## Left out

- Signing: key changes, more than two passes at once, signed zones inside signed zones, NSEC3, the signatures and digests themselves, and the wire form of type bitmaps.
- Resign.ServedProofsAreTrue: leaves out false NSEC rows written by hand, the moments between a row and its mark and between a failure and its re-mark, and takes one pass at a time, because the promise is false otherwise; TrueProofsIff, HandLinkIff, HandSignatureIff and WindowIff say what holds there, and Overlap.OverlapIff when two passes are safe.
- Overlap.OverlapIff: the continuations it speaks of may hold an NSEC row written by hand that is true when written, needed only where the first pass has published everything and all of it has been deleted since.
- Resign: rows are kept by name and type, so deleting one of several values is a mark and nothing else, and deleting by value across types is not modelled.
- SOA choice in negative answers, TTL clamping and TTL drift.
- Scopes: TLD peer forwarders, ingress rewriting, blocklist gates inside a scope, and the renaming of wildcard answers.
- ScopedAnswers.AnsweredFromOwnRows: asks for isolated scope names, because without them it is false (Scopes.Leaks), and for names whose labels are not empty and hold no dot.
- ScopedCache: answers cached for unscoped clients under names that begin with `@`, and which text the wire library gives a name; a name here is any text.
- Scopes.ScopesDoNotInterfere: asks for isolated scope names and speaks of the tables only, because without them it is false; ScopedCache.BlindIff gives the exact condition with the answer cache.
- Breaker: the failure counter's 32-bit wrap-around.
- BreakerRuns: programming a different list while queries are in flight.
- TierChain: which tiers a configuration enables and how a tier talks to its servers.
- Resolver: the contents of answers, root priming, the delegation and key caches (they only save queries), and timeouts.
- Selection: how latencies are averaged, the shuffle before ranking (ties fall any way), and rounding of floating-point scores.
- Selection.PicksStayBalanced: latencies are held fixed, as the documented balance assumes.
- Dhcp: packet options, host-name label validation (hosts are valid labels or absent), duplicate rows of one registration, deleting a scope, and a sweep running between the writes of another handler.
- Dnsbl: parsing of refusal code ranges, the reverse-address gate (it asks no provider), and the :53 reachability probe beyond its flag.
- LocalCache: the disk copy of upstream answers.
- CaTxt: base64 and DER, which the libraries on both sides do; JavaScript's readings of numbers other than plain digits.
- CaTxt.FramesFit: for certificates of fewer than 10^23 pieces.
- TcpFraming: write errors, which end the connection.
- DriftCheck: the regular expressions that find code identifiers; a document comes with its multiset of them.
- Sockets, TLS, DoH, DoQ, DoT, HTTP/3, gRPC plumbing, the command line, metrics, ACME and the enrollment portal, DNS64: wiring around libraries, or easy members only.
