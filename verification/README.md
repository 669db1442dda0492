# Thorax: machine-checked properties of the vault, its authority and its rollback ratchet

Thorax keeps secrets in a vault of signed records. Who may read, write or delegate is decided by
grants over keyspaces; vaults are merged as sets; every machine, and every Kubernetes controller,
remembers the highest counter it has verified at each record key (the rollback ratchet) so that an
older vault is noticed. This project models those parts in Dafny and proves what the design relies
on. `dafny verify dfyconfig.toml` checks all of it.

| file | what it models |
|---|---|
| `Format.dfy` | the value types of the record format, and the ordering of strings |
| `Matching.dfy` | keyspace matching and the syntactic subsumption test |
| `Authority.dfy` | one principal's authority set, and who may create which grant |
| `Delegation.dfy` | effective authority over grants and nested groups, as the code computes it |
| `Settling.dfy`, `Displacement.dfy` | how a log of signed records settles into a principal graph, and four vaults that show what that does |
| `Coalition.dfy` | what several users together can reach, and what they can cost others |
| `Quoting.dfy`, `SelectorGrammar.dfy`, `SelectorRoundTrip.dfy`, `SelectorQuery.dfy` | the selector and query grammars, their scanners and the canonical printer |
| `Records.dfy`, `Ratchet.dfy`, `RatchetFacts.dfy` | record keys and counters, the ratchet, its typed encoding and its history |
| `Lww.dfy`, `ConflictResolution.dfy` | last-writer-wins resolution, ties, rollback suspicion and settling a conflict |
| `VaultMerge.dfy` | merging vaults, convergence of replicas, rollback detection across merges |
| `Journal.dfy` | the journaled commit of vault and ratchet, its recovery and its abandonment |
| `Keychain.dfy`, `KeychainMigration.dfy` | the crash-restartable split of the identity files |
| `ClusterRatchet.dfy`, `LeaderLease.dfy`, `ReconcileStatus.dfy` | the controller: the shared ratchet object, the leader lease, the sticky status |
| `Transcript.dfy` | the length-prefixed transcripts that signatures and HPKE contexts are computed over |

Code that loops or changes state is written as methods and classes and proved against a
specification function or predicate; the properties are lemmas about those. Systems of several
actors (controllers, replicas, coalitions) are state machines whose steps interleave freely. Crashes
are modelled by a budget of durable effects: holding for every budget is holding for a power loss
between any two effects. Signatures, hashes and sealed payloads are opaque values; a hash stands for
the content it commits to.

Where the repository turns out to say more than its code does:

- A selector whose tuple is the single segment `*` or `.` renders to a text that, as a query, selects
  every tuple (`SelectorQuery.QueryOfRender`). The comment on the rendering promises only that it
  parses back as a selector, which it does.
- `selector_subsumes` refuses some selectors that are contained, but only selectors that record
  validation refuses too (`Matching.NonCanonicalSelectorsAreRefused`, `Matching.SubsumptionExact`).
- "A weaker manager cannot delete a stronger grant" holds of deletions but not of re-issues: a grant's
  id comes from its seed alone, a new grant at the same id is judged by its own permission, and what
  the displaced holder had signed goes with it (`Displacement.DisplacementCascades`).
  `Settling.LostRecordWasOvertaken` says what any loss takes.
- Delegation is confined only up to records that lie dormant in the log: taking the authority of a
  signer away can bring an older grant back (`Displacement.DeletionWakesAdministrator`).
  `Coalition.AdditionsAreConfined` is the theorem with that case in it, `Coalition.NothingIsAmplified`
  the one without.
- The authority loop need not settle: `Displacement.CyclicNeverSettles` is a vault of three grants on
  which it cycles, `Settling.OrderlyLogSettles` a condition under which it does settle.
- A merge can show a machine a counter below what it has verified although nothing was rolled back,
  when it brings in a revocation (`VaultMerge.RevocationShowsRollback`); `VaultMerge.RollbackShownIff`
  says exactly when.
- A controller that goes by an outdated status can break all four promises about its status
  (`ReconcileStatus.OutdatedStatusBreaksAll`; `ReconcileStatus.IdentityKeptIff` says exactly when the
  identity is safe), and a run that restores rejected trust can replace a higher ratchet put back
  meanwhile (`ClusterRatchet.RestoringTrustCanLower`; `ClusterRatchet.StepLowersIff` says exactly when).
- Absorbing ratchet records that name one key differently shows their order in the remembered origin,
  never in a watermark (`RatchetFacts.InconsistentNamesShowOrder`).
- The high-water mark does not count the record of a user who never vouched for the root, though that
  record competes (`ConflictResolution.SelectedCounts`). A suspected rollback at such a user's key
  therefore cannot be settled by re-signing the user's record
  (`ConflictResolution.UnvouchedStaysSuspected`); the attempt is refused and nothing is written.

## Model

| member | source | states |
|---|---|---|
| Matching.SubsumptionSound | crates/thorax-core/src/authz.rs:170-278 | if the syntactic test accepts, every secret the child matches is matched by the parent, for all selectors, canonical or not |
| Matching.RefusalWitness | crates/thorax-core/src/authz.rs:178-278 | if the test refuses comparable selectors, there is a valid (sorted) secret that meets all of the child's constraints and not the parent's |
| Matching.SubsumptionExact | crates/thorax-core/src/authz.rs:178-278 | for comparable selectors the syntactic test holds if and only if the parent contains the child |
| Matching.ValidKeyspacesAreComparable | crates/thorax-core/src/validate/structure.rs:170-234 | selectors that pass record validation are comparable, so the test is exact on everything a vault can hold |
| Matching.NonCanonicalSelectorsAreRefused | crates/thorax-core/src/authz.rs:209-278 | one contained pair the test refuses for each dropped condition: an empty prefix, an empty value list, a repeated key |
| Matching.UnderPrefix | crates/thorax-core/src/format.rs:847-857 | the prefix constructor makes a valid selector that matches exactly the secrets under the prefix, the empty prefix included |
| Matching.SubsumptionTransitive | crates/thorax-core/src/authz.rs:178-278 | the syntactic test is transitive on all selectors |
| Matching.SubsumptionReflexive | crates/thorax-core/src/authz.rs:178-278 | a selector with distinct keys subsumes itself |
| Authority.PushUnique | crates/thorax-core/src/authz.rs:188-195 | keeps a list without repeats, adds exactly the item, and reports a change exactly when it was new |
| Authority.AuthoritySet.AddPermission | crates/thorax-core/src/authz.rs:32-47 | the held set grows by exactly the permission, lists stay duplicate-free, the answer says whether it grew |
| Authority.AuthoritySet.MergeFrom | crates/thorax-core/src/authz.rs:151-167 | the held set becomes the union, lists stay duplicate-free, and a change is reported exactly when the union is larger |
| Authority.AuthoritySet.AsGrantPermissions | crates/thorax-core/src/authz.rs:134-149 | lists exactly the held permissions |
| Authority.CanCreateIffEnabled | crates/thorax-core/src/authz.rs:78-132 | the branching rule for creating a grant holds exactly when some single held permission enables the new one |
| Authority.EnablingIsTransitive | crates/thorax-core/src/authz.rs:78-132 | a permission enabled by an enabled permission was enabled by the first |
| Authority.UseDependsOnHeld | crates/thorax-core/src/authz.rs:49-75 | reading, writing and managing a secret depend on the held set alone, not on list order or repetition |
| Authority.MergedCapabilities | crates/thorax-core/src/authz.rs:49-75 | a merge can read, write or manage exactly what one of the two sides can |
| Authority.CapabilityHierarchy | crates/thorax-core/src/authz.rs:49-75 | managing implies writing and writing implies reading |
| Authority.GrantersCanReadWhatTheyGrant | crates/thorax-core/src/authz.rs:98-132 | whoever may create a keyspace grant can read every secret that grant covers |
| Delegation.AbsorbOnce | crates/thorax-core/src/validate/effective.rs:337-347 | one pass over the memberships keeps the table sound and complete for direct grants, and reports no change only if nothing is left to inherit |
| Delegation.ComputeAuthorities | crates/thorax-core/src/validate/effective.rs:323-360 | the inheritance loop terminates, and its table holds exactly what chains of memberships confer, cycles included |
| Delegation.ClosedTableIsComplete | crates/thorax-core/src/validate/effective.rs:337-350 | a table closed under every membership holds everything any chain confers |
| Delegation.CanCreateIffHoldsEnabling | crates/thorax-core/src/authz.rs:98-132 | whether a user may create a grant is decided by what it effectively holds |
| Settling.LiveIsSigned | crates/thorax-core/src/validate/effective.rs:185-317 | a grant or membership in force after a pass is what some record says whose signer held the authority for it |
| Settling.UnovertakenIsInForce | crates/thorax-core/src/validate/effective.rs:185-317 | a record that competes is in force after the pass unless a competitor at its slot, at least as high, says something else |
| Settling.PrincipalInForceIff | crates/thorax-core/src/validate/effective.rs:185-245 | a principal exists after a pass exactly when an administrator added it above every admitted deletion, and a user has vouched |
| Settling.MembershipInForceIff | crates/thorax-core/src/validate/effective.rs:247-277 | a membership is in force exactly when both principals exist and an administrator added it above every removal by an administrator |
| Settling.GrantInForceIff | crates/thorax-core/src/validate/effective.rs:285-304 | a grant is in force exactly when its subject exists and somebody who could create it issued it above every admitted deletion and every other grant somebody could create at its id |
| Settling.LostMembershipWasRemoved | crates/thorax-core/src/validate/effective.rs:247-277 | a membership an administrator added is out of force only if an administrator removed it, at least as high |
| Settling.DeletingTakesCreating | crates/thorax-core/src/validate/pipeline.rs:575-595 | deleting a live grant takes the authority to have created it and what the deletion states, deleting any other the latter or administration, and deleting a principal administration |
| Settling.LostRecordWasOvertaken | crates/thorax-core/src/validate/effective.rs:185-317 | a record that rests on a support goes out of force, in any settled state of a log that has grown, only if it or a record it rests on is overtaken at its own slot by a record that is new or has woken |
| Settling.PassMonotone | crates/thorax-core/src/validate/effective.rs:38-60 | in a log where no id carries two different grants and only the root takes members out, more in force before a pass is more in force after it |
| Settling.OrderlyLogSettles | crates/thorax-core/src/validate/effective.rs:38-60 | such a log settles, at the latest after as many passes as it says things |
| Displacement.PeacefulSettles | crates/thorax-core/src/validate/effective.rs:185-317 | a vault whose root made one administrator, who made another, is settled with both |
| Displacement.WeakIsWeak | crates/thorax-core/src/validate/pipeline.rs:575-595 | a manager of one keyspace in it may neither create nor delete an administrator's grant, and may issue a read grant |
| Displacement.DisplacementCascades | crates/thorax-core/src/validate/effective.rs:285-304 | that read grant, issued at the first administrator's id, ends both: the passes reach and keep a settled state without either |
| Displacement.AliceIsSupported | crates/thorax-core/src/validate/effective.rs:185-317 | the second administrator's grant rests on the two users having been added and on the first administrator's grant |
| Displacement.CascadeIsAccountedFor | crates/thorax-core/src/validate/effective.rs:285-304 | the general account of a loss applies to the cascade: a record the lost grant rests on was overtaken at its own id |
| Displacement.DormantSettles | crates/thorax-core/src/validate/effective.rs:285-304 | a vault in which an administrator's grant is displaced is settled without an administrator |
| Displacement.ManagerMayDelete | crates/thorax-core/src/validate/pipeline.rs:575-595 | a manager in it may delete the displacing signer's grant, and nobody concerned could create an administrator |
| Displacement.DeletionWakesAdministrator | crates/thorax-core/src/validate/effective.rs:285-304 | after that deletion the older grant is in force again and its holder an administrator |
| Displacement.CyclicNeverSettles | crates/thorax-core/src/validate/effective.rs:38-60 | a vault where a signer displaces the grant its own authority comes from has no settled state |
| Displacement.CyclicNeverConverges | crates/thorax-core/src/validate/effective.rs:38-60 | so no number of passes converges on it |
| Displacement.SelfSupportIsArbitrary | crates/thorax-core/src/validate/effective.rs:38-60 | a grant that rests only on itself is settled in force and out of force; the passes leave it out |
| Coalition.AdditionsAreConfined | crates/thorax-core/src/validate/effective.rs:38-60 | whatever records a coalition adds, authorized or not and at any counters, after any number of passes whatever anyone holds was held at the start, or creatable by a member at the start, or is conferred or enabled by a record that lay dormant in the log |
| Coalition.CreatableStaysInReach | crates/thorax-core/src/authz.rs:78-149 | the same of whatever the coalition can create in the end |
| Coalition.NothingIsAmplified | crates/thorax-core/src/authz.rs:78-149 | where nothing lies dormant, whatever anyone newly holds was creatable by a member at the start |
| Coalition.NoAdministratorIsMade | crates/thorax-core/src/authz.rs:98-132 | a coalition without an administrator makes one of nobody, unless a dormant record confers it |
| Coalition.LossTakesARecord | crates/thorax-core/src/validate/effective.rs:185-317 | something in force that rests on a support is lost only if a member put a record at its slot or at the slot of something it rests on, or a dormant record woke there |
| Quoting.SplitUnquoted | crates/thorax-frontend/src/selector.rs:164-188 | the index-based scanner computes the recursive split |
| Quoting.SplitOnceUnquoted | crates/thorax-frontend/src/selector.rs:190-211 | the scanner returns exactly the first cut, or none |
| Quoting.SplitOncePeels | crates/thorax-frontend/src/selector.rs:164-211 | splitting once peels exactly the first part of the full split, at a point where the quote state is clean |
| Quoting.JoinOfSplit | crates/thorax-frontend/src/selector.rs:164-188 | joining the parts gives the text back, every part is uncut, every part but the last ends clean, and the last ends as the whole text does |
| Quoting.SplitOfJoin | crates/thorax-frontend/src/selector.rs:164-188 | a list of parts of that shape is recovered from its joined text, so splitting is the unique inverse of joining |
| Quoting.DecodeField | crates/thorax-frontend/src/selector.rs:213-242 | the decoder computes the unquoted content, and refuses exactly when the scan ends inside a quote or an escape |
| Quoting.LiteralOfSplit | crates/thorax-frontend/src/selector.rs:164-242 | decoding the parts and joining them by the delimiter is decoding the whole |
| Quoting.EscapeSegment | crates/thorax-frontend/src/selector.rs:247-264 | the printer loop computes the canonical spelling of a segment |
| Quoting.BareIff | crates/thorax-frontend/src/selector.rs:247-252 | a field is spelled as it is exactly when it is not empty and has none of the seven structural characters |
| Quoting.BackslashHides | crates/thorax-frontend/src/selector.rs:164-242 | a backslash makes any character literal, in a quoted run and outside, and nothing cuts there |
| Quoting.QuoteHides | crates/thorax-frontend/src/selector.rs:164-242 | in a quoted run every other character but the quote is literal and cuts nothing |
| Quoting.OutsideIsBare | crates/thorax-frontend/src/selector.rs:164-242 | outside one a delimiter cuts and any other character stands for itself |
| Quoting.RefusalOfField | crates/thorax-frontend/src/selector.rs:213-242 | a field is refused for a dangling escape or an open quote, whichever its end is in |
| Quoting.EscapeRoundTrip | crates/thorax-frontend/src/selector.rs:213-264 | a printed segment decodes to itself, is never cut by any delimiter, and ends in a clean quote state |
| SelectorGrammar.ParseTuplePath | crates/thorax-frontend/src/selector.rs:141-160 | the segment loop computes the specified tuple and fails on the first bad segment |
| SelectorGrammar.ParsePairs | crates/thorax-frontend/src/selector.rs:56-70 | the label loop computes the specified pairs and fails on the first bad one |
| SelectorGrammar.ParseSecretSelector | crates/thorax-frontend/src/selector.rs:48-80 | the parser computes the specified selector or its first error |
| SelectorGrammar.SelectorString | crates/thorax-frontend/src/selector.rs:275-284 | the printer loop computes the canonical spelling |
| Ordering.LessIff | crates/thorax-frontend/src/selector.rs:71-77 | keys are ordered by code point: a proper prefix first, otherwise by the first characters that differ |
| SelectorGrammar.SortedOfStrict | crates/thorax-frontend/src/selector.rs:71-77 | sorting leaves strictly ordered labels alone |
| SelectorGrammar.SortedIsAscending | crates/thorax-frontend/src/selector.rs:71-77 | sorted labels are in ascending key order and are the same labels |
| SelectorGrammar.NoRepeatIsStrict | crates/thorax-frontend/src/selector.rs:71-77 | checking neighbours for equal keys finds every repeated key |
| SelectorRoundTrip.ParseOfRender | crates/thorax-frontend/src/selector.rs:48-80 | parsing the rendering of a valid selector gives exactly that selector, whatever characters its fields contain |
| SelectorRoundTrip.RenderInjective | crates/thorax-frontend/src/selector.rs:247-284 | distinct valid selectors have distinct renderings |
| SelectorRoundTrip.AcceptedIsValid | crates/thorax-frontend/src/selector.rs:48-80 | whatever the parser accepts is a valid selector, and its rendering parses back to it |
| SelectorRoundTrip.ParseableIffValid | crates/thorax-frontend/src/selector.rs:48-80 | a selector is what some text parses to exactly when it is valid |
| SelectorRoundTrip.UnclosedIsRefused | crates/thorax-frontend/src/selector.rs:48-80 | a text whose scan ends inside a quote or an escape is refused |
| SelectorQuery.ParseSecretQuery | crates/thorax-frontend/src/selector.rs:83-130 | the query parser computes the specified query, duplicate keys refused |
| SelectorQuery.ParseQueryLabel | crates/thorax-frontend/src/selector.rs:96-127 | each label form is read as absence, any value or equality, or refused |
| SelectorQuery.QueryOfRender | crates/thorax-frontend/src/selector.rs:83-130 | a rendered valid selector is always a query: a prefix of the tuple plus equality labels, or any tuple exactly when the tuple is spelled like a wildcard |
| SelectorQuery.RenderedQuerySelects | crates/thorax-frontend/src/selector.rs:247-284 | that query selects the selector itself, and exactly the secrets that extend its tuple and carry its labels |
| SelectorQuery.AcceptedQueryIsExact | crates/thorax-frontend/src/selector.rs:83-130 | an accepted query has distinct keys, no empty list and no empty prefix, so subsumption is exact for it |
| SelectorQuery.QueryableIff | crates/thorax-frontend/src/selector.rs:83-130 | a keyspace is what some query parses to if and only if its labels are distinct absence, any-value or equality forms and its tuple is everything or a prefix of non-empty segments; each has a spelling, literal `*` and `.` included |
| SelectorQuery.AcceptedIsQueryable | crates/thorax-frontend/src/selector.rs:83-130 | nothing else is ever accepted |
| SelectorQuery.WholeVaultSpelled | crates/thorax-frontend/src/selector.rs:83-95 | the three bare spellings of the whole vault, the empty query refused, and a quoted wildcard literal |
| SelectorQuery.UnclosedQueryIsRefused | crates/thorax-frontend/src/selector.rs:83-130 | a query whose scan ends inside a quote or an escape is refused |
| Records.ForKeyReadsBack | crates/thorax-core/src/format.rs:275-423 | a ratchet record made for a key reads back as that key and counter, with the origin exactly when its kind matches and it is not empty; the vault root alone has none |
| Records.KeysByKind | crates/thorax-core/src/validate/mod.rs:167-211 | an addition and its deletion share the key of their kind and id, and only an entry point keys on its signer |
| Records.RestampKeepsFields | crates/thorax-core/src/format.rs:540-559 | re-stamping keeps the class and every field but the counter |
| Records.RestampKeepsKey | crates/thorax-core/src/format.rs:518-572 | re-stamping a record body changes its counter and neither its key nor whether it deletes |
| Ratchet.LocalRatchet.ApplyUpdate | crates/thorax-core/src/ratchet.rs:96-109 | the loops compute the pointwise maximum, the first origin sticks, the version only rises |
| Ratchet.LocalRatchet.AbsorbRecord | crates/thorax-core/src/ratchet.rs:143-161 | one record raises its key or the version and changes nothing else |
| Ratchet.LocalRatchet.ToRecords | crates/thorax-core/src/ratchet.rs:117-136 | lists exactly the records of the encodable keys with their counters and origins, the version when there is one, and the root |
| Ratchet.LocalRatchet.AcceptRollback | crates/thorax-ops/src/conflicts.rs:217-257 | refuses without a conflict and on a tie, and otherwise forgets that one key down to the shown counter |
| RatchetFacts.UpdatedSpelled | crates/thorax-core/src/ratchet.rs:96-109 | an update leaves, at each key, the higher counter and the origin remembered first or else the update's, and the higher version |
| RatchetFacts.AcceptedSpelled | crates/thorax-ops/src/conflicts.rs:217-257 | an acceptance leaves the key at the accepted counter with its origin, or forgets both |
| RatchetFacts.AbsorbedWatermark | crates/thorax-core/src/ratchet.rs:143-161 | after any list of records each watermark is exactly the maximum of the old one and the listed counters |
| RatchetFacts.AbsorbedOrigin | crates/thorax-core/src/ratchet.rs:143-161 | a remembered origin is never replaced, and a new one comes from some listed record of that key |
| RatchetFacts.AbsorbOrderIrrelevant | crates/thorax-core/src/ratchet.rs:117-161 | order and repetition of records never show in watermarks or version, nor in origins when no key is named in two ways |
| RatchetFacts.InconsistentNamesShowOrder | crates/thorax-core/src/ratchet.rs:143-161 | two records that name one key differently are remembered differently in either order |
| RatchetFacts.AbsorbListed | crates/thorax-core/src/ratchet.rs:117-161 | absorbing another ratchet's records, in any order and with any repetition, is the pointwise join of the two |
| RatchetFacts.EncodingRoundTrip | crates/thorax-core/src/ratchet.rs:117-161 | absorbing a ratchet's own records into a fresh one restores it if and only if it has no root key and only carried origins |
| RatchetFacts.WatermarkHistory | crates/thorax-core/src/ratchet.rs:96-161 | after any run of updates, absorptions and acceptances each watermark is the maximum raised since its last acceptance, over the accepted counter |
| RatchetFacts.AcceptanceIsLocal | crates/thorax-ops/src/conflicts.rs:217-257 | accepting a rollback changes no other key |
| RatchetFacts.AcceptanceClearsExactly | crates/thorax-core/src/validate/pipeline.rs:267-277 | accepting what the vault shows clears that key's suspicion and no other |
| RatchetFacts.UpdateNeverHidesRollback | crates/thorax-core/src/ratchet.rs:96-109 | folding a validation's raises in leaves exactly the same keys under suspicion against that validation |
| Lww.CollectSlots | crates/thorax-core/src/validate/effective.rs:388-409 | the slot loop collects, at each key, exactly the competing records of the highest counter |
| Lww.LwwResolution | crates/thorax-core/src/validate/effective.rs:383-444 | winners and conflicts are exactly as specified: the least hash among leaders that agree, a conflict listing all leaders where they differ, nothing at suspected keys |
| Lww.ResolutionUnique | crates/thorax-core/src/validate/effective.rs:374-444 | the resolution depends on the set of records, not on their order or repetition |
| Lww.KeyKeepsVerdict | crates/thorax-core/src/merge.rs:133-204 | a key with the same leaders keeps its winner and its tie |
| ConflictResolution.AdmittedWatermarks | crates/thorax-core/src/validate/pipeline.rs:528-572 | computes the highest admitted counter at each key, for the class-by-class admission rule of the effective state or any other |
| ConflictResolution.CounterAtIsHighest | crates/thorax-core/src/validate/pipeline.rs:528-572 | that counter bounds every admitted record of the key and is one of theirs, or zero |
| ConflictResolution.MintedIsAbove | crates/thorax-core/src/validate/mod.rs:339-383 | a minted counter is above every admitted and every suspected counter and within the ceiling, saturation included |
| ConflictResolution.RatifiedSpelled | crates/thorax-ops/src/conflicts.rs:52-81 | a secret is ratified as sealed afresh, anything else with what it said; only the root cannot be |
| ConflictResolution.RatifiedKeepsKeyAndBar | crates/thorax-ops/src/conflicts.rs:35-85 | the re-stamped record keeps its key and needs exactly the authority the candidate needed |
| ConflictResolution.MintRefusedIff | crates/thorax-ops/src/lib.rs:437-458 | a counter is refused only when one it must exceed is at the ceiling |
| ConflictResolution.BarSpelled | crates/thorax-ops/src/conflicts.rs:265-310 | what writing each class of record takes, in terms of the permissions held |
| ConflictResolution.RefusalSpelled | crates/thorax-ops/src/conflicts.rs:265-310 | the pre-flight refuses exactly a record of another key, the root, and a resolver that does not hold what the class takes, or what the group confers |
| ConflictResolution.CountsSpelled | crates/thorax-core/src/validate/pipeline.rs:541-560 | which records raise a high-water mark, class by class, in terms of the permissions held |
| ConflictResolution.SelectsSpelled | crates/thorax-core/src/validate/effective.rs:185-304 | which records compete, class by class: those that take as much and speak of what exists |
| ConflictResolution.SelectedCounts | crates/thorax-core/src/validate/pipeline.rs:541-560 | whatever competes at a key also counts for its high-water mark, except the record of a user who never vouched for the root |
| ConflictResolution.RatifiedSelectedIff | crates/thorax-core/src/validate/effective.rs:185-304 | a ratified record competes if and only if what its body speaks of exists |
| ConflictResolution.TiedCandidateHasReferents | crates/thorax-core/src/validate/effective.rs:185-304 | for a tied candidate it does |
| ConflictResolution.OutrankedIsUnvouched | crates/thorax-core/src/validate/pipeline.rs:541-560 | above everything that counts, a competitor at least as high is found only at the key of an unvouched user |
| ConflictResolution.MustTakeEffect | crates/thorax-ops/src/conflicts.rs:333-398 | a competing record that is not outranked is the only leader of its key under the suspicion that remains |
| ConflictResolution.UnvouchedStaysSuspected | crates/thorax-core/src/validate/pipeline.rs:541-567 | an unvouched user's key under suspicion stays so however high its record is re-signed |
| ConflictResolution.EffectIsLocal | crates/thorax-ops/src/conflicts.rs:35-85 | under the effective state's own rules no other key's winner or conflict changes |
| ConflictResolution.ResolverSession.TakesEffect | crates/thorax-ops/src/conflicts.rs:333-398 | validating the records with the new one among them tells whether its content prevails in every resolution, and an added user is effective only with an unsuspected entry point of its own |
| ConflictResolution.ResolverSession.Ratify | crates/thorax-ops/src/lib.rs:437-458 | stamps the candidate above every counter that counts and every suspected rollback, or reports that counters ran out |
| ConflictResolution.ResolverSession.ResolveConflict | crates/thorax-ops/src/conflicts.rs:35-85 | appends one record made from the chosen candidate by a resolver that holds what its class takes, whose content then prevails at the conflict's key in every resolution of the new records; it is refused as not authorized exactly when the resolver does not hold that, as ineffective only if, and a resolved record never when, what the candidate speaks of does not exist, an added user has not vouched, or it is outranked at an unvouched user's key; no refusal changes anything |
| ConflictResolution.ResolverSession.FindCandidate | crates/thorax-ops/src/conflicts.rs:314-331 | finds a listed candidate by hash exactly when there is one |
| ConflictResolution.RatifiedClearsRollback | crates/thorax-ops/src/conflicts.rs:35-85 | an admitted record above the remembered counter clears its key's suspicion and no other |
| ConflictResolution.RatifiedLeads | crates/thorax-core/src/validate/effective.rs:383-444 | an admitted record above its key's competitors is the only leader there, and other keys keep their leaders |
| ConflictResolution.RatifiedWinsAndIsLocal | crates/thorax-ops/src/conflicts.rs:35-85 | it wins, its conflict is gone, and no other key's winner or conflict changes |
| VaultMerge.AnchorsSpelled | crates/thorax-core/src/merge.rs:206-216 | the trust anchors are the records read as vault roots and nothing else |
| VaultMerge.MergeSymmetric | crates/thorax-core/src/merge.rs:89-131 | the outcome is the same from either side, refusals included |
| VaultMerge.MergeRefusedExactly | crates/thorax-core/src/merge.rs:101-130 | for any vaults, a merge is refused as rootless exactly when a side has no root, as a substitution exactly when some side disagrees on the roots of the whole, and is otherwise the union |
| VaultMerge.MergeKeepsRoots | crates/thorax-core/src/merge.rs:89-131 | a merged vault has exactly the root records both sides share, even with a base that has none |
| VaultMerge.ReplicaIsGenesisAndCommits | crates/thorax-core/src/merge.rs:89-131 | a replica of one vault that never adds a root is never refused and holds exactly the original records and the commits absorbed |
| VaultMerge.ReplicasConverge | crates/thorax-core/src/merge.rs:89-131 | replicas that absorbed the same commits are equal, whatever the order, grouping and repetition of their merges |
| VaultMerge.MergedCounter | crates/thorax-core/src/merge.rs:116-130 | seen by one effective state, the highest admitted counter at a key of the merge is the maximum over base, ours and theirs |
| VaultMerge.MergingNeverManufacturesRollback | crates/thorax-core/src/validate/pipeline.rs:258-350 | a machine that only appends and merges, with the effective state changing at every step, never sees an admitted counter below its watermark as long as no record it counted loses its admission |
| VaultMerge.RollbackShownIff | crates/thorax-core/src/validate/pipeline.rs:258-277 | a change of vault shows a machine that has just verified a rollback at a key if and only if no record as high as the highest it had counted there is admitted any more |
| VaultMerge.RevocationShowsRollback | crates/thorax-core/src/validate/pipeline.rs:541-572 | merging in the revocation of a writer does that to the writer's own secret |
| Journal.MergeRatchet | crates/thorax-ops/src/transaction.rs:379-392 | refuses another root's ratchet, and otherwise computes the join, unknown records kept once each |
| Journal.MergedIsLeastUpperBound | crates/thorax-ops/src/transaction.rs:379-392 | the merged ratchet is the least one that remembers at least what both remember |
| Journal.MergedIdempotent | crates/thorax-ops/src/transaction.rs:379-392 | merging twice is merging once, unknown records and origins included |
| Journal.MoveWeakensIff | crates/thorax-ops/src/transaction.rs:146-172 | the state readers go by gets weaker in one durable effect exactly when a ratchet write itself is weaker than what it replaces |
| Journal.PreparedIsRaising | crates/thorax-ops/src/session.rs:236-262 | the next ratchet a commit journals, any number of validations folded in and then written, forgets nothing of the one it starts from: watermarks, version, origins or unknown records |
| Journal.StrongestNeverFalls | crates/thorax-ops/src/transaction.rs:126-172 | over every run of commits, crashes, recoveries, abandonments, loads and outside edits of vault files, readers' trust never falls unless someone weakens it on purpose |
| Journal.StrongestCoversBoth | crates/thorax-ops/src/transaction.rs:146-172 | readers go by no less than the ratchet file or the journal says |
| Journal.RecoverableIff | crates/thorax-ops/src/transaction.rs:348-365 | recovery may go on exactly when each file is what the transaction found or what it leaves |
| Journal.UnknownVaultStays | crates/thorax-ops/src/transaction.rs:262-321 | over every run, with others editing other files, a vault file whose content no pending or begun transaction found keeps that content |
| Journal.AllOrNothing | crates/thorax-ops/src/transaction.rs:262-321 | however often a commit is interrupted only four disks ever show, each recoverable, the vault never ahead of the ratchet, and once the journal is gone both files are the after-images |
| Journal.AbandonKeepsStrongest | crates/thorax-ops/src/transaction.rs:240-260 | abandonment leaves readers' trust the same before, between and after its writes and touches no vault file |
| Journal.MergedIsEitherIff | crates/thorax-ops/src/transaction.rs:379-392 | merging gives the newer ratchet if and only if it forgets nothing, and the older one if and only if the newer adds nothing |
| Journal.InterruptedAbandonRecoversIff | crates/thorax-ops/src/transaction.rs:240-321 | after an abandonment lost power between its writes recovery can go through if and only if the next ratchet was already in place, forgets nothing or adds nothing |
| Journal.PreparedAbandonRecovers | crates/thorax-ops/src/transaction.rs:240-321 | so for every transaction a commit prepares it always can |
| Journal.ForgetfulTransactionIsStranded | crates/thorax-ops/src/transaction.rs:348-365 | a transaction that forgot one watermark while raising another could not be recovered; no commit prepares one |
| Journal.StateDirectory.Complete | crates/thorax-ops/src/transaction.rs:262-321 | refuses exactly when the vault or the ratchet is neither what the transaction found nor what it leaves, writing nothing, and otherwise ends in the committed disk with at most three effects |
| Journal.StateDirectory.Recover | crates/thorax-ops/src/transaction.rs:50-105 | only the clone that began the transaction carries it on, none does beside an older join journal, and every other outcome changes nothing |
| Journal.StateDirectory.Commit | crates/thorax-ops/src/transaction.rs:176-223 | refuses exactly on a pending journal of either kind, a changed file or an invalid after-image; otherwise both files change or the journal says so, and nothing is begun only with no effect left at all |
| Journal.StateDirectory.Abandon | crates/thorax-ops/src/transaction.rs:240-260 | ends with the merged ratchet and no journal, vaults untouched; it loses power only within two effects |
| Journal.StateDirectory.AbandonDespiteCrashes | crates/thorax-ops/src/transaction.rs:240-260 | abandoning again after every power loss goes through once it is given two effects, with the uninterrupted result |
| Journal.StateDirectory.CommitDespiteCrashes | crates/thorax-ops/src/transaction.rs:50-82 | whatever the crash points, once begun restarting ends with exactly the uninterrupted commit as soon as one run has three effects; nothing was begun only if there was no effect at all |
| Keychain.MigrationConserves | crates/thorax-keychain/src/lib.rs:924-1076 | over every history of crashes and restarts no identity of this root is lost or invented, no split file is overwritten, and foreign and unknown legacy records stay where they are |
| Keychain.LegacyRecordsStay | crates/thorax-keychain/src/lib.rs:1040-1076 | over every history a legacy file goes on holding exactly the records it held that are not identities of this root, and one that does not decode is not touched |
| Keychain.CombinedMigratableIff | crates/thorax-keychain/src/lib.rs:924-1009 | what stands in the way of splitting the combined file, record by record |
| Keychain.LegacyMigratableIff | crates/thorax-keychain/src/lib.rs:1024-1046 | what stands in the way of moving a legacy file, for this root's identities only |
| Keychain.MigratedCombinedSpelled | crates/thorax-keychain/src/lib.rs:924-1009 | a completed split leaves every record of the combined file in its own file unchanged, the combined file gone, and nothing else touched |
| Keychain.MigratedLegacySpelled | crates/thorax-keychain/src/lib.rs:1011-1076 | a completed legacy migration leaves this root's identities in their own files unchanged, every other record in the legacy file, and nothing else touched |
| Keychain.CombinedRemovedOnlyWhenSplit | crates/thorax-keychain/src/lib.rs:924-1009 | the combined file is intact, or gone with every record in its own file |
| Keychain.MigratedUnique | crates/thorax-keychain/src/lib.rs:924-1076 | a disk has at most one migrated form, for the combined file as for a legacy file |
| Keychain.Migrated | crates/thorax-keychain/src/lib.rs:924-1076 | and it has one wherever nothing stands in the way |
| Keychain.InterruptedEndsTheSame | crates/thorax-keychain/src/lib.rs:924-1076 | from any interrupted point of either migration carrying it through is still possible and ends in exactly the uninterrupted disk |
| KeychainMigration.KeychainDir.PlaceIdentity | crates/thorax-keychain/src/lib.rs:811-838 | writes one identity to a free file, accepts an equal one, never replaces another; it fails exactly when the destination is taken or too small, and loses power only with no effect left |
| KeychainMigration.KeychainDir.PlaceCurrent | crates/thorax-keychain/src/lib.rs:840-856 | the same for the current-user selector |
| KeychainMigration.KeychainDir.Collect | crates/thorax-keychain/src/lib.rs:945-976 | sorts the combined records, refusing exactly a foreign root or two selectors |
| KeychainMigration.KeychainDir.MigrateRootCombined | crates/thorax-keychain/src/lib.rs:924-1009 | loses power only within as many effects as there are records; otherwise it completes exactly when nothing stands in the way, in the migrated form |
| KeychainMigration.KeychainDir.RestartAfterCrashes | crates/thorax-keychain/src/lib.rs:924-1076 | for either migration: no restart fails where migrating was possible, one given enough effects completes, and the disk is then exactly the uninterrupted result |
| KeychainMigration.KeychainDir.MigrateLegacyUser | crates/thorax-keychain/src/lib.rs:1011-1076 | loses power only within as many effects as there are identities to move; otherwise it fails exactly when the file is unreadable or an identity has no place, and else moves exactly this root's identities and keeps every other record |
| KeychainMigration.KeychainDir.UnlockSealed | crates/thorax-keychain/src/lib.rs:463-490 | given enough effects it is refused exactly when a named obstacle stands in the way, and otherwise yields the identity found in the split, combined or legacy file, or none exactly when there is none |
| KeychainMigration.StoredIsFound | crates/thorax-keychain/src/lib.rs:463-490 | an identity stored in any of the three places is found unless a nearer one hides it |
| ClusterRatchet.StepLowersIff | crates/thorax-kubernetes-controller/src/ratchet.rs:75-218 | after any interleaving a controller's step lowers the stored ratchet if and only if it saves, for a run whose own load was rejected and at the revision now shown, something below an authentic ratchet |
| ClusterRatchet.RunRisesIff | crates/thorax-kubernetes-controller/src/controller.rs:302-348 | a run of any number of overlapping controllers raises the stored ratchet throughout if and only if no such save happens and nobody else writes a lower one |
| ClusterRatchet.RunNeverLowers | crates/thorax-kubernetes-controller/src/controller.rs:302-348 | and then the watermarks and version at the end are at least those at the start |
| ClusterRatchet.ControllersAloneNeverLower | crates/thorax-kubernetes-controller/src/controller.rs:428-533 | from a trustworthy object controllers left to themselves never meet the exception |
| ClusterRatchet.SavesRememberBaselines | crates/thorax-kubernetes-controller/src/controller.rs:428-533 | over every interleaving a save stores at least what its validation raised and what it loaded, and a first or restoring one at least every counter and version its approved baseline listed; a restoring one follows established trust |
| ClusterRatchet.SaveReplacesExpected | crates/thorax-kubernetes-controller/src/ratchet.rs:121-149 | a save that goes through took out exactly the revision it expected, of an object of its own, or found the cell as empty as it expected, and left what it stored at a fresh revision |
| ClusterRatchet.SavesNeverShareARevision | crates/thorax-kubernetes-controller/src/ratchet.rs:121-149 | two saves that expected the same revision never both succeed |
| ClusterRatchet.OneCreateWithoutDeletion | crates/thorax-kubernetes-controller/src/ratchet.rs:177-218 | while nobody deletes the object at most one create succeeds |
| ClusterRatchet.RestoringTrustCanLower | crates/thorax-kubernetes-controller/src/controller.rs:428-445 | the exception is real: a restoring run asks for the revision late and may replace a higher ratchet put back meanwhile |
| LeaderLease.LeaseKeepsOthersOut | crates/thorax-kubernetes-controller/src/leader.rs:97-114 | a lease once written keeps every other candidate out for exactly its duration and its holder never; one that was never renewed can always be taken |
| LeaderLease.ExpirySpelled | crates/thorax-kubernetes-controller/src/leader.rs:97-107 | a lease has run out once its stored duration, thirty seconds by default, has passed since it was renewed or else acquired, and at once if it was neither |
| LeaderLease.RenewalSpelled | crates/thorax-kubernetes-controller/src/leader.rs:108-116 | what is written over a lease, field by field, and that nothing is written over another's that has not run out |
| LeaderLease.AcquisitionsAreRightful | crates/thorax-kubernetes-controller/src/leader.rs:67-122 | over every interleaving a lease passes on only if the very lease replaced had run out or was the holder's own, with the transition count telling which, and no revision is replaced twice |
| ReconcileStatus.EstablishedAfterPatch | crates/thorax-kubernetes-controller/src/controller.rs:1417-1468 | a written status says trust is established exactly when the status the reconcile started from did or this one is ready |
| ReconcileStatus.IdentityAfterPatch | crates/thorax-kubernetes-controller/src/controller.rs:1417-1468 | a written status keeps the identity on record exactly when the report names none or names it |
| ReconcileStatus.PatchSpelled | crates/thorax-kubernetes-controller/src/controller.rs:1417-1468 | a written status says field by field what was reported, and leaves what was not |
| ReconcileStatus.ReadyTakes | crates/thorax-kubernetes-controller/src/controller.rs:186-381 | ready is reported only of a decoded vault, with the identity in the Secret and no other on record, a ratchet neither unavailable nor rejected before trust, and a verification that succeeded |
| ReconcileStatus.RejectedBeforeTrust | crates/thorax-kubernetes-controller/src/controller.rs:349-365 | before trust is established a rejected ratchet ends the reconcile with that reason and requests nothing |
| ReconcileStatus.RequestedPurpose | crates/thorax-kubernetes-controller/src/controller.rs:367-381 | without a ratchet enrollment is requested before trust and restoring after |
| ReconcileStatus.IdentitySpelled | crates/thorax-kubernetes-controller/src/controller.rs:891-966 | when an identity is generated, written, used and refused |
| ReconcileStatus.ReconciledSpelled | crates/thorax-kubernetes-controller/src/controller.rs:148-184 | which status a reconcile leaves when its work or its status write fails |
| ReconcileStatus.OutdatedStatusBreaksAll | crates/thorax-kubernetes-controller/src/controller.rs:148-371 | one reconcile that goes by a status from before the first write, with the identity Secret gone, generates a second identity, puts it on record, asks to enroll it and erases the trust mark |
| ReconcileStatus.IdentityKeptIff | crates/thorax-kubernetes-controller/src/controller.rs:891-966 | whatever the cluster answers, a reconcile keeps the identity on record if and only if the status it goes by names it, or names none while the Secret is there and holds no other |
| ReconcileStatus.RecordedIdentityIsKept | crates/thorax-kubernetes-controller/src/controller.rs:891-966 | once an identity is on record none is generated and no other is reported |
| ReconcileStatus.ReconcilesAreSticky | crates/thorax-kubernetes-controller/src/controller.rs:148-371 | over every sequence of reconciles that go by a status agreeing with the live one on identity and trust, the recorded identity and established trust are never lost, none is generated anew, and enrollment is never requested again |
| Transcript.BigEndianValueOfDigits | crates/thorax-crypto/src/lib.rs:598-601 | the length header denotes the length it was written from |
| Transcript.TranscriptBuffer.AppendTranscript | crates/thorax-crypto/src/lib.rs:598-601 | appends one framed field and nothing else |
| Transcript.SignatureTranscript | crates/thorax-crypto/src/lib.rs:577-584 | is the encoding of the fixed domain, the caller's domain and the message |
| Transcript.HpkeInfo | crates/thorax-crypto/src/lib.rs:586-591 | is the encoding of the fixed domain and the info |
| Transcript.EncodePrefixIffFieldsPrefix | crates/thorax-crypto/src/lib.rs:598-601 | one transcript is a prefix of another exactly when its field list is |
| Transcript.EncodeInjective | crates/thorax-crypto/src/lib.rs:598-601 | transcripts are equal exactly when their field lists are |
| Transcript.DomainsSpelled | crates/thorax-crypto/src/lib.rs:20-24 | the two fixed domains, character by character |
| Transcript.TranscriptsSeparateDomains | crates/thorax-crypto/src/lib.rs:577-591 | distinct (domain, message) pairs never share a signature transcript, and none is ever an HPKE context or a prefix of one |

## Left out

- Cryptography (Ed25519, HPKE, ChaCha20-Poly1305, Argon2, SHA-256), the Cord codec, Bech32m, QR codes: foreign code, opaque values here.
- Signer resolution, introductions and the order in which deletions are admitted: signers are resolved users, and the theorems about settled states hold for whatever deletions have been admitted.
- Settling.LostRecordWasOvertaken: keys under suspicion of a rollback are not represented among the slots, and which users have vouched is given.
- Coalition.AdditionsAreConfined: goes one way; which dormant records a coalition can in fact wake is not characterised, since it depends on every signer in the log.
- Delegation.ComputeAuthorities: a principal's authority is the set it holds, justified by the contracts of the authority set's methods; list order within a principal is not represented.
- Lww.LwwResolution: records compete per record key; call sites that group by a derived id are not distinguished from it.
- ConflictResolution.RatifiedWinsAndIsLocal: authorities and existing principals are one state, the same before and after; that ratifying a membership or grant may change others' authority is not modelled.
- ConflictResolution.MustTakeEffect: goes by that one state.
- ConflictResolution.EffectIsLocal: goes by that one state.
- ConflictResolution.ResolverSession.ResolveConflict: goes by that one state too; decrypting a secret value and sealing it afresh are inputs.
- ConflictResolution.AdmittedWatermarks: deletions are admitted by the authority of their signer in that state and not one by one in counter order.
- Ratchet.LocalRatchet.AcceptRollback: the revalidation after the acceptance is left out; that the suspicion is gone is `RatchetFacts.AcceptanceClearsExactly`, a tie among the records it releases is not ruled out.
- VaultMerge.MergingNeverManufacturesRollback: the effective state after each step is an input and not computed from the records.
- SelectorGrammar.ParseSecretSelector: errors carry the kind and not the quoted text of the input.
- `detect_ties` in the merge module: an oracle used by tests; the resolution the program uses is modelled.
- Journal.StateDirectory.Recover: the state directory's own files always decode, an older join journal found alone is left to the code that completes it, and locks make each call uninterrupted except by a crash.
- Journal.StateDirectory.Commit: the two validations of the vault that precede it are the caller's; size limits are left out.
- Storing an identity or switching the current user on request: plain overwrites after migration.
- Re-reads right after an atomic write, file permissions, symbolic links, lock polling and zeroization.
- LeaderLease.AcquisitionsAreRightful: does not say that only one leader acts at a time, because the local deadline runs from the response and not from the renewal time written.
- Failed API calls in the lease and ratchet steps: a run that fails is one that takes no further step.
- ClusterRatchet.RunNeverLowers: reconciles are steps over the object's value; the in-memory ratchet a run mutates between steps is the one proved in `Ratchet.dfy`.
- ReconcileStatus.ReconcilesAreSticky: the message texts, the join request's content and the approval checks are inputs.
- How often the controller writes status, watches and requeues: it depends on the client cache.
- Projected Kubernetes secrets, CRD field limits, the command line, the terminal interface, Node bindings, rendering and Git configuration.
