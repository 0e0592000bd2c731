# Ardur governance core: a verified model

Ardur decides, for each tool call of an agent, whether the call is allowed, and leaves a signed
receipt for every decision. This project models the parts of it whose correctness is not visible
in any single function, and proves what they promise over every input, every run and every
interleaving. `dafny verify dfyconfig.toml` checks all of it.

| part | modules |
|---|---|
| the child-binding protocol of the Claude Code hook, as a persisted state machine under any interleaving of hook processes | `ChildBindings`, `BindingStore`, `BindingRuns`, `BindingLives` |
| Biscuit passports: issuing, the fold over attenuation blocks, verification at a moment, derivation of a child, and the statement splitter | `PassportFacts`, `BiscuitIssue`, `BiscuitChain`, `BiscuitAttenuation`, `BiscuitVerify`, `ChainFacts`, `BiscuitDerive`, `DeriveRequest`, `BiscuitLifecycle`, `ResourceScope`, `GlobMeaning`, `ScopeResolution`, `BlockStatements`, `Paths`, `PathMeaning`, `Lists` |
| the receipt chain file and the in-process cache of verified counts | `ReceiptChain`, `SessionCache`, `ReceiptRuns` |
| the hand-written C client of the hook daemon against the Python client | `JsonText`, `JsonStrings`, `JsonParse`, `HookOutput`, `NativeScanner`, `NativeClient`, `NativeRefinement`, `ResponseWire` |
| the two-file installer of that client | `PairInstall` |
| the compiler from mission policy to kernel policy plans | `BpfPolicy`, `BpfLower`, `BpfPaths`, `BpfNotes`, `ToolProjection` |
| grant chains of attenuating agent tokens (draft-niyikiza-oauth-attenuating-agent-tokens-00) | `AatGrants` |
| the call budget that a parent shares with its children | `BudgetLedger` |
| the sliding-window approval counter | `ApprovalRate` |

`Results` and `Text` hold the shared result types and Python's string stripping.

How the model stands to the code:

- Code that only computes is a function. Code that updates variables or objects is a method or a
  class, proved equal to a specification function or predicate; the theorems are about those.
- What the specification functions themselves compute is stated once more without them: over the
  facts of the blocks, the characters of paths and names, the places of receipts, the events of a run.
- An exception is a `None` or `Err` result. Transactions that change the binding store and then
  raise still commit, as the code's `finally` makes them.
- Locks are steps of the state machines. Signatures are a signer whose tokens open to what was
  signed, hashes are injective, and the adapter that spawns children may give any answer that keeps
  one handle per request. Clocks, freshly made names and failures of the operating system are
  parameters, quantified over.
- JSON text is modelled as the code points that the daemon writes: section 7 of RFC 8259 with
  non-ASCII characters escaped and no white space.

Where a promise turned out not to hold of the code as it is, the code is kept, and the condition
under which it holds is proved to be exact, with a failing case shown or contained in the proof:

- On a whole response the C client and the Python client differ exactly on outputs whose `continue` is
  present and not a Boolean, and on texts between the two clients' size limits (`ClientsPartIff`,
  `ContinueNumberParts`, `BetweenTheLimits`).
- A scope that passes the attenuation test can still match more, because the test compares paths and
  the scope check matches globs; for entries of literals and stars it matches no more exactly if the
  parent has an entry that matches the child's entry as a text (`TouchesNoMoreIff`,
  `NarrowedScopeTouchesMore`). Where it matches no more it can still permit more, because the check then
  resolves links and compares with each scope's own roots; for local entries it permits no more exactly
  if moreover the child's resolved root lies inside the parent's (`PermitsNoMoreIff`,
  `LinkedEntryPermitsMore`).
- The evidence in a parent's receipt shows the true balance exactly if the call was synchronized with
  the ledger and did not lose a reservation, or nothing is reserved (`EvidenceIsTrueBalanceIff`,
  `LostReservationIsNotShown`, `UnboundCallIsNotShown`); used plus reserved stays within the ceiling
  exactly if no call was blind to the ledger (`ReservedCoveredIff`, `LostReservationIsOvercommitted`).
- A derived passport is granted as derived exactly if it is `Redeemable`: a normalized cwd that ends in
  white space is not, because `_normalize_cwd` is not idempotent (`DerivedIsGrantedIff`,
  `BlankCwdIsDerivedAndNotGranted`).
- An explicit tool list is exactly what the child may call unless the parent is a wildcard and the list
  is empty or itself a wildcard (`NamedToolsExactIff`).
- A chain file verifies exactly if every receipt but the last fits the 16 KiB tail (`ChainLinkedIff`).
- Cached counts equal a recount exactly if no permitted receipt of another grant was appended to the
  entry since it was loaded (`HitIsRecountIff`), which the hook handlers' order of loading and receipting
  makes sure of (`HitIsRecount`); otherwise they exceed it (`UndisciplinedOvercounts`). A load with the
  cache answers as one without it exactly if it does not hit or the chain verifies
  (`LoadIsFullLoadIff`, `UnlinkedChainStillHits`).
- Two reserves of one request without the trace lock can revive a quarantined reservation
  (`ReservesWithoutLockRevive`, `ReserveWriteForwardIff`).
- The effective budget of a token chain can grow if the mission's budget exceeds 10^9
  (`BudgetGrowsIff`, `BudgetGrowsAbove`), and its resource scope can grow because it is checked against
  the mission only (`ScopeNeverGrowsIff`, `SilentChildRegainsScope`).
- No window holds too many approvals exactly if each is recorded where a check has just said yes, which
  checks and records of two threads need not do (`GatedIffNoWindowOver`, `ChecksBeforeRecords`); this is
  while an operator's clock does not go back, which the code does not make sure of
  (`BackwardClockOverfills`).
- Dropping the last side-effect class lifts the restriction instead of tightening it, for exactly the
  ops that only the class list denied (`DroppingEveryClassLifts`).
- A written JSON value reads back as itself exactly if in none of its strings a lone high surrogate
  stands before a lone low one (`RoundTripIff`).

Where the code and its documentation disagree, the model follows the code: `bpf_lower.py` says that
strict mode raises on every dimension it cannot lower, but unmappable tools, hostnames and invalid
prefixes still go to `tier2_ops`; `verify_biscuit_passport` says that a skew of `None` disables its
bound, but `None` selects the default and zero disables it.

## Model

| member | source | states |
|---|---|---|
| `ChildBindings.ReserveWriteKeeps` | python/vibap/claude_code_children.py:648-663 | the second reserve transaction keeps the indexes inverse and moves records only forward, if its key is still free |
| `ChildBindings.BindStartKeeps` | python/vibap/claude_code_children.py:706-776 | binding a started agent keeps every index consistent and ends, never revives, other records |
| `ChildBindings.BindStartDecides` | python/vibap/claude_code_children.py:706-776 | the agent is bound exactly if the eligible reservations agree on one policy, then to the least key; otherwise it is blocked; which records expire, which are quarantined, and that no other changes |
| `ChildBindings.ReconcileKeeps` | python/vibap/claude_code_children.py:561-581 | reconciling with any adapter answers keeps consistency and only ends records |
| `ChildBindings.ResolveKeeps` | python/vibap/claude_code_children.py:794-819 | resolving, which may expire a record before it raises, keeps consistency and only ends records |
| `ChildBindings.StopEndKeeps` | python/vibap/claude_code_children.py:863-881 | the second stop transaction keeps consistency and only ends records |
| `ChildBindings.CancelKeeps` | python/vibap/claude_code_children.py:919-928 | cancelling a handle keeps consistency and only ends records |
| `ChildBindings.CommitKeeps` | python/vibap/claude_code_children.py:481-494 | whether or not the write goes through, what is then stored is consistent and not behind what was |
| `BindingStore.KeysSeparatePairs` | python/vibap/claude_code_children.py:550-559 | two bounded (session, agent) pairs have one key only if they are one pair |
| `BindingStore.UncheckedKeysCollide` | python/vibap/claude_code_children.py:550-559 | without the bound that refuses NUL, different pairs share a key text |
| `BindingStore.Store.Persist` | python/vibap/claude_code_children.py:450-494 | the stored state after a transaction is the committed one, and an error is raised exactly if validation or the write failed, the latter also after the new file is in place, which is the one case that raises and is stored all the same |
| `BindingStore.Store.ReconcileAll` | python/vibap/claude_code_children.py:561-581 | the loop over the reservations stores what reconciliation specifies |
| `BindingStore.Store.ReserveSecond` | python/vibap/claude_code_children.py:648-669 | stores the reservation, or raises on a conflict and stores nothing |
| `BindingStore.Store.BindStartUnnamed` | python/vibap/claude_code_children.py:685-705 | a start without an agent id quarantines the type and taints the session |
| `BindingStore.Store.ScanReservations` | python/vibap/claude_code_children.py:726-743 | the scan finds exactly the eligible reservations and expires exactly the stale ones |
| `BindingStore.Store.BindStartNamed` | python/vibap/claude_code_children.py:706-778 | the imperative start equals its specification in state and outcome |
| `BindingStore.Store.ResolveChild` | python/vibap/claude_code_children.py:780-819 | the imperative resolve equals its specification in state and outcome, errors included |
| `BindingStore.Store.StopUnnamedAll` | python/vibap/claude_code_children.py:826-838 | a stop without an agent id quarantines every live reservation |
| `BindingStore.Store.StopFirst` | python/vibap/claude_code_children.py:841-862 | the first stop transaction finds its target or blocks the agent |
| `BindingStore.Store.StopSecond` | python/vibap/claude_code_children.py:863-881 | the second stop transaction closes or quarantines the target |
| `BindingStore.Store.CancelReservation` | python/vibap/claude_code_children.py:919-928 | quarantines exactly the live reservation with the handle |
| `BindingRuns.StepInv` | python/vibap/claude_code_children.py:481-928 | every step of any process, failed writes and crashes included, keeps the binding-store invariant and moves the store forward |
| `BindingRuns.RunInv` | python/vibap/claude_code_children.py:481-928 | so does every run of any number of processes under the trace lock |
| `BindingRuns.AuthorityNeverReturns` | python/vibap/claude_code_children.py:561-928 | a reservation that ended stays ended in every continuation, and whoever is bound to it is refused |
| `BindingRuns.RefusedAgentStaysRefused` | python/vibap/claude_code_children.py:780-819 | a blocked, stopped, expired or quarantined agent never resolves again |
| `BindingRuns.StopIsFinal` | python/vibap/claude_code_children.py:841-881 | once the second stop transaction commits, the agent's authority is gone in every continuation |
| `BindingRuns.IdentityFixedAndExclusive` | python/vibap/claude_code_children.py:792-819 | at any two moments of a run, two agents resolve to one handle exactly if they are one agent |
| `BindingRuns.OneHandlePerPair` | python/vibap/claude_code_children.py:550-819 | the same in terms of (session, agent) pairs |
| `BindingRuns.BoundNeverOutnumberReserved` | python/vibap/claude_code_children.py:706-776 | in every reachable state a type has at most as many bound agents as reservations |
| `BindingRuns.WriteRefusedOnlyByLimits` | python/vibap/claude_code_children.py:332-439 | on every reachable state a transaction fails validation exactly if a table outgrows its limit: the cross-checks never stop it |
| `BindingRuns.ReserveWriteForwardIff` | python/vibap/claude_code_children.py:648-663 | alone, the second reserve transaction moves forward exactly if the key is free, it conflicts, or it rewrites that very pending record |
| `BindingRuns.ReservesWithoutLockRevive` | python/vibap/claude_code_hook.py:1101 | without the trace lock a run exists that turns a quarantined reservation back to pending |
| `BindingLives.ExpiredHandleNeverResolves` | python/vibap/claude_code_children.py:803-815 | over every run, a handle whose spawns all expire by some time resolves for no one at any moment from then on |
| `BindingLives.BoundResolvesIff` | python/vibap/claude_code_children.py:780-819 | over every continuation, a bound agent resolves to its reservation's handle at a moment exactly if that is before its expiry and no reconcile, late resolve, stop or cancel of it has committed |
| `BindingLives.StartedResolvesIff` | python/vibap/claude_code_children.py:706-819 | and a committed start with agreeing eligible reservations makes that so for the one with the least key |
| `BindingLives.StepOnBound` | python/vibap/claude_code_children.py:561-928 | a step ends a bound reservation exactly if it is one of those transactions and commits, and otherwise leaves it as it is |
| `BindingLives.StartOutcomeTruthful` | python/vibap/claude_code_children.py:706-776 | a start reports a handle exactly if the agent is then bound to a live record, and it is that record's |
| `BindingLives.StartBlocksWhy` | python/vibap/claude_code_children.py:706-776 | a start of a new agent blocks it exactly if no reservation of its type is left or the ones left disagree on the policy, with which reason, and what it reports |
| `BindingLives.StartLeaves` | python/vibap/claude_code_children.py:726-776 | which records of its type a start expires, quarantines, binds or leaves pending, and that it changes no other |
| `BindingLives.ReplayAnswersFirstHandle` | python/vibap/claude_code_children.py:605-622 | over every continuation a reserved request never spawns again; its replay gets the first handle exactly if the policy is the same and the record has not ended |
| `BindingLives.ReconcileDecides` | python/vibap/claude_code_children.py:561-581 | a reconcile leaves live exactly the live records whose handles the adapter vouches for, and tells closed from expired |
| `BindingLives.StartUnnamedDecides` | python/vibap/claude_code_children.py:685-705 | an unnamed start quarantines exactly the pending records of its type |
| `BindingLives.StopUnnamedDecides` | python/vibap/claude_code_children.py:826-838 | an unnamed stop leaves no record live and changes no ended one |
| `BindingLives.StopBeginDecides` | python/vibap/claude_code_children.py:841-862 | a stop blocks exactly an agent that is not bound, and finds its target exactly if that is live |
| `BindingLives.StopEndDecides` | python/vibap/claude_code_children.py:863-881 | a stop closes its record, or quarantines it with the adapter's code, and touches no other |
| `BindingLives.CancelDecides` | python/vibap/claude_code_children.py:919-928 | a cancel quarantines exactly the live records with its handle |
| `BindingLives.ReserveCompletes` | python/vibap/claude_code_children.py:590-669 | from every state with the trace lock free, an uninterrupted reserve of a new request adds exactly its pending record and gives the lock back |
| `BindingLives.StopCompletes` | python/vibap/claude_code_children.py:821-881 | from every state, an uninterrupted stop of a bound agent ends exactly its reservation |
| `BindingLives.StoredIsLegible` | python/vibap/claude_code_children.py:332-439 | in every reachable store no table has more than 4096 entries, and every time and text in it is one that validation reads back |
| `PassportFacts.RowsOfGroup` | python/vibap/biscuit_passport.py:810-825 | a block built from groups of facts under different names reads back each group, whole and in order |
| `BiscuitChain.ContextFromBlocks` | python/vibap/biscuit_passport.py:458-807 | the loop over the blocks computes the fold, and raises exactly where the fold does |
| `BiscuitAttenuation.WithinPermitsLess` | python/vibap/native_checks.py:59-205 | containment means less: every tool, side effect and spend that the child may use, the parent may |
| `ResourceScope.TouchesNoMoreIff` | python/vibap/proxy.py:1101-1149 | a child's scope of literals and stars matches no resource beyond its parent's exactly if each of its entries, as a text, is matched by an entry of the parent |
| `ResourceScope.TakenTouchesNoMore` | python/vibap/proxy.py:1101-1149 | for patterns of any kind, it matches none if each of its entries is taken in, part by part, by an entry of the parent |
| `ResourceScope.MatchCompose` | python/vibap/proxy.py:1148-1149 | a pattern of literals and stars that matches another's text matches all that the other matches |
| `GlobMeaning.StarBetween` | python/vibap/proxy.py:1148-1149 | a star between literals matches exactly the texts that start with the one and end with the other |
| `GlobMeaning.QuestionMarks` | python/vibap/proxy.py:1148-1149 | what a pattern of literals and question marks matches |
| `GlobMeaning.BracketTakesOne` | python/vibap/proxy.py:1148-1149 | a closed bracket expression matches one character of those in it |
| `GlobMeaning.OpenBrackets` | python/vibap/proxy.py:1148-1149 | a bracket that is never closed stands for itself |
| `ResourceScope.NarrowedScopeTouchesMore` | python/vibap/biscuit_passport.py:1029-1069 | the scope "/a/b" is accepted under "/a" and matches a resource that "/a" does not |
| `ScopeResolution.PermitsIff` | python/vibap/proxy.py:1192-1225 | a scope of local entries permits a resource exactly if one of its entries matches it and the resolved resource lies inside that entry's resolved root, whatever other entries match |
| `ScopeResolution.PermitsNoMoreIff` | python/vibap/proxy.py:1151-1225 | a child's scope of local entries permits no resource beyond its parent's exactly if each entry is matched, as a text, by a parent's entry whose resolved root holds the child's |
| `ScopeResolution.ContainedPermits` | python/vibap/proxy.py:1151-1225 | and that condition suffices whether or not a fresh name exists under the child's roots |
| `ScopeResolution.LinkedEntryPermitsMore` | python/vibap/proxy.py:1192-1225 | with "/a/b" a link to a file elsewhere, the scope "/a/b" permits it and the scope "/a", "/a/*" it was derived from does not |
| `BiscuitAttenuation.ApplyWithin` | python/vibap/biscuit_passport.py:545-779 | one accepted block leaves authority within its parent's on all dimensions at once |
| `BiscuitAttenuation.LeafWithinEveryAncestor` | python/vibap/biscuit_passport.py:530-779 | in every accepted chain of any length the leaf's authority is within each ancestor's |
| `BiscuitAttenuation.ChainLengthBounded` | python/vibap/biscuit_passport.py:551-635 | an accepted chain has at most one block more than the root's delegation depth |
| `BiscuitAttenuation.EntryNarrowerTransitive` | python/vibap/biscuit_passport.py:1055-1069 | narrower scope entries compose, wildcards and path entries included |
| `Paths.NormalizeStableIff` | python/vibap/passport.py:219-261 | a normalized cwd normalizes to itself exactly if it does not end in white space |
| `Paths.SubpathTransitive` | python/vibap/passport.py:264-281 | the subpath test composes |
| `Paths.SegmentIff` | python/vibap/passport.py:219-261 | splitting at slashes finds a segment exactly if the characters show it |
| `PathMeaning.NormalizeMeaning` | python/vibap/passport.py:219-261 | which cwds are refused, which read as none, and that a normal form has the given segments in order but for empty ones and dots |
| `PathMeaning.SubpathIff` | python/vibap/passport.py:264-281 | on normal forms the subpath test is the prefix test on segments |
| `BiscuitIssue.IssuedIsGranted` | python/vibap/biscuit_passport.py:110-185 | an issued passport is accepted exactly while its time, and at most the past skew, lasts, and grants the mission it was issued for |
| `BiscuitLifecycle.IssuedCanBePassedOn` | python/vibap/biscuit_passport.py:110-435 | at every moment of its life but the last, a passport issued for delegation can be passed on as it is, and the child may call exactly what the parent may |
| `BiscuitVerify.HandsOutSorted` | python/vibap/biscuit_passport.py:781-793 | the lists of a verified context are in ascending order and are permutations of the folded ones |
| `BiscuitVerify.WalkIat` | python/vibap/biscuit_passport.py:260-287 | the nested walk accepts exactly if every iat row of every block lies in the skew window and the root has one |
| `BiscuitVerify.FoldIsChain` | python/vibap/biscuit_passport.py:530-586 | the fold at a moment is the clock-free fold, refused if some child has expired |
| `BiscuitVerify.AcceptanceWindow` | python/vibap/biscuit_passport.py:226-295 | a sound chain is accepted exactly from leaf iat less the future skew up to the leaf's expiry and the root's iat plus the past skew, and then grants the leaf's context |
| `BiscuitVerify.UnsoundNeverAccepted` | python/vibap/biscuit_passport.py:290-295 | a chain that does not attenuate is accepted at no moment |
| `ChainFacts.SoundIff` | python/vibap/biscuit_passport.py:530-779 | in the blocks' own facts: a chain is sound exactly if the root reads and each later block reads, names the one before it, which allows delegation and has depth left, keeps within its time and budgets, and permits nothing more |
| `ChainFacts.AcceptedIsLinked` | python/vibap/biscuit_passport.py:545-562 | in every accepted chain each block's parent_jti is the jti of the block before it, and that block allows delegation |
| `ChainFacts.UnlinkedNeverAccepted` | python/vibap/biscuit_passport.py:545-562 | a chain that breaks either is accepted at no moment |
| `ChainFacts.LeafFacts` | python/vibap/biscuit_passport.py:764-772 | the leaf's identity, times and budgets are the last block's facts |
| `ChainFacts.LeafList` | python/vibap/biscuit_passport.py:637-708 | each tool and class list of the leaf is the one of the last block that declares it |
| `ChainFacts.LeafCapsAndRoot` | python/vibap/biscuit_passport.py:710-778 | so are its caps, and agent, mission and issuer are the root's |
| `ChainFacts.LeafScope` | python/vibap/biscuit_passport.py:672-691 | its scope is what the last block that declares or clears one says |
| `ChainFacts.LeafCwd` | python/vibap/biscuit_passport.py:745-753 | its cwd is the root's as written, or the normal form of the last one declared |
| `ChainFacts.BadMarkerNeverAccepted` | python/vibap/biscuit_passport.py:672-679 | a marker of a cleared scope that is not a single true, or stands beside entries, is accepted at no moment |
| `ChainFacts.ToolsNarrowIff` | python/vibap/biscuit_passport.py:637-670 | the tool check passes exactly if what is denied stays denied and the child may call no tool that the parent may not |
| `ChainFacts.EntryNarrowerIff` | python/vibap/biscuit_passport.py:1055-1069 | the scope entry test, read from the texts of two paths |
| `ChainFacts.DeriveScopeIff` | python/vibap/biscuit_passport.py:1029-1069 | when a declared scope is accepted, and that it then has its own entries |
| `ChainFacts.DeriveCwdIff` | python/vibap/biscuit_passport.py:1072-1088 | when a declared cwd is accepted, and what it becomes |
| `BiscuitDerive.MergeCaps` | python/vibap/biscuit_passport.py:366-387 | the loop over requested caps overrides the parent's, and refuses exactly a class not allowed, a negative cap or a widened one |
| `BiscuitDerive.BlockReadsBack` | python/vibap/biscuit_passport.py:394-422 | the block that is written reads back as the child that was decided, empty lists and markers included |
| `BiscuitDerive.NarrowsIff` | python/vibap/biscuit_passport.py:327-422 | what a derivation decides passes the verifier's tool, scope and class checks always, and the rest exactly if numbers, caps and cwd do |
| `BiscuitDerive.DerivedIsGrantedIff` | python/vibap/biscuit_passport.py:298-435 | verifying a derived passport gives back the very context that was decided, exactly if parent and request are redeemable |
| `DeriveRequest.DeriveSucceedsIff` | python/vibap/biscuit_passport.py:298-393 | a derivation succeeds exactly if the parent verifies and every requested part, written out, may be asked of it |
| `DeriveRequest.DerivedAsAsked` | python/vibap/biscuit_passport.py:327-435 | the verified derived passport has the requested calls, the requested time or what is left of the parent's, exactly the requested scope entries, the requested caps over the parent's, and the requested tools |
| `DeriveRequest.DerivedCwdIff` | python/vibap/biscuit_passport.py:389-435 | and its cwd is the normal form of the requested one, or the parent's, exactly if the request is redeemable |
| `BiscuitDerive.DerivedWindow` | python/vibap/biscuit_passport.py:298-435 | such a passport is accepted at exactly the moments between its derivation less the skew and its expiry or the root's age limit |
| `BiscuitDerive.NamedToolsExactIff` | python/vibap/biscuit_passport.py:327-341 | an explicit tool list, the empty one included, is exactly what the child may call, if and only if the parent is no wildcard or the list is non-empty and no wildcard |
| `BiscuitDerive.UnnamedToolsPassOn` | python/vibap/biscuit_passport.py:330-341 | without a tool list the child may call exactly what the parent may |
| `BiscuitDerive.BlankCwdIsNotGranted` | python/vibap/biscuit_passport.py:389 | a derivation with the cwd "/a /" never verifies to the context that was decided |
| `BiscuitLifecycle.BlankCwdIsDerivedAndNotGranted` | python/vibap/biscuit_passport.py:298-435 | and from every passport issued for delegation without a cwd that derivation succeeds |
| `BlockStatements.SplitBlockStatements` | python/vibap/biscuit_passport.py:896-928 | the character loop with its two flags computes the split |
| `BlockStatements.JoinedSplits` | python/vibap/biscuit_passport.py:896-928 | splitting the newline-joined text of any trimmed statements returns those statements |
| `BlockStatements.SplitIsLayout` | python/vibap/biscuit_passport.py:896-928 | conversely, an accepted source is its statements, padded, followed by white space only |
| `BlockStatements.SplitIsStable` | python/vibap/biscuit_passport.py:896-928 | joining what was split and splitting again changes nothing, for every accepted source |
| `BlockStatements.SplitRejectsIff` | python/vibap/biscuit_passport.py:922-927 | a source is rejected exactly if it ends inside a string or something visible follows its last unquoted semicolon |
| `BlockStatements.StatementIff` | python/vibap/biscuit_passport.py:896-928 | what is taken for a statement, as a grammar: characters other than quotes and semicolons, and quoted strings with backslash pairs, up to one semicolon |
| `ReceiptChain.LinesOfFile` | python/vibap/claude_code_hook.py:738-740 | reading a chain file gives back the appended tokens |
| `ReceiptChain.PreviousIsLastIff` | python/vibap/claude_code_hook.py:227-245 | the tail lookup names the last token exactly if that token and its newline fit in 16384 bytes |
| `ReceiptChain.VerifyReceipts` | python/vibap/receipt.py:1119-1181 | the two passes accept exactly a root followed by receipts that each name the token before them |
| `ReceiptChain.CountPermitted` | python/vibap/claude_code_hook.py:764-775 | the filter and the loop count the permitted calls of the grant, in total and by class |
| `ReceiptChain.RecountMeaning` | python/vibap/claude_code_hook.py:764-775 | the total is the number of compliant pre receipts of the grant, and a class is listed exactly if there is one of it, with their number |
| `SessionCache.LoadBounded` | python/vibap/claude_code_hook.py:748-785 | a load leaves at most 128 entries, evicts least recently used ones, never the one it used, and changes no other |
| `SessionCache.Sessions.LoadState` | python/vibap/claude_code_hook.py:716-790 | the imperative load equals its specification: limits first, then a hit, then verification, recount and eviction |
| `SessionCache.Sessions.AdvanceState` | python/vibap/claude_code_hook.py:829-858 | the imperative advance equals its specification and does nothing without an entry |
| `ReceiptRuns.ChainLinkedIff` | python/vibap/claude_code_hook.py:901-998 | over every interleaving of locked emitters each file's chain verifies exactly if every token but the last fits the tail |
| `ReceiptRuns.StepTraces` | python/vibap/claude_code_hook.py:171-204 | every step keeps what a lock holder looked up equal to what the file says |
| `ReceiptRuns.ScriptedIsDisciplined` | python/vibap/claude_code_hook.py:1167-1265 | handlers that load before they receipt keep, under any interleaving, the loaded grant equal to the receipted one whenever they hold the lock |
| `ReceiptRuns.HitIsRecount` | python/vibap/claude_code_hook.py:716-858 | over every interleaving of such handlers and of appends by other processes, a hit answers the total and per-class counts of a full recount |
| `ReceiptRuns.HitCountsPermitted` | python/vibap/claude_code_hook.py:716-858 | so a hit answers those numbers of the file, in total and by class |
| `ReceiptRuns.HitIsRecountIff` | python/vibap/claude_code_hook.py:829-858 | over every interleaving, whatever the handlers do, a hit answers a recount exactly if no permitted receipt of another grant was appended since the entry was loaded |
| `ReceiptRuns.AdvancedCount` | python/vibap/claude_code_hook.py:838-857 | a cached total is the recounted one plus the permitted receipts of other grants since the load |
| `ReceiptRuns.AdvancedClass` | python/vibap/claude_code_hook.py:838-857 | and so it is class by class |
| `ReceiptRuns.HitNeverUnder` | python/vibap/claude_code_hook.py:829-858 | whatever the handlers do, a hit never answers less than a recount |
| `ReceiptRuns.LoadIsFullLoadIff` | python/vibap/claude_code_hook.py:716-790 | over every interleaving of such handlers, loading with the cache and without it answer the same, errors included, exactly if the load does not hit or every token but the last fits the tail |
| `ReceiptRuns.FullLoadAnswersIff` | python/vibap/claude_code_hook.py:716-763 | without the cache a load answers exactly if the file has at most 16 MiB and 8192 receipts and every token but the last fits the tail |
| `ReceiptRuns.UnlinkedChainStillHits` | python/vibap/claude_code_hook.py:748-763 | after a token that does not fit and one more, the next load hits where a full load refuses the chain |
| `ReceiptRuns.UndisciplinedOvercounts` | python/vibap/claude_code_hook.py:844-850 | a permitted call receipted for another grant is counted by a hit and not by a recount |
| `JsonStrings.UnescapeIsMerged` | python/vibap/claude_code_daemon_client.py:96-105 | a string written as the daemon writes it reads back with lone surrogates in pair order merged, and no other change |
| `JsonParse.ParseOfSerialize` | python/vibap/claude_code_daemon_client.py:96-105 | parsing the text of any value gives the value with its strings so read |
| `JsonParse.RoundTripIff` | python/vibap/claude_code_daemon_client.py:96-105 | and the very value exactly if it has no such surrogates |
| `JsonParse.TruncatedNotParsed` | python/vibap/claude_code_daemon_client.py:92-99 | the text of an object, array or string that is cut short does not parse |
| `NativeScanner.FindKeyExact` | python/vibap/claude_code_daemon.py:339-404 | on the text of any object the scanner finds a plain key exactly if the object has it, and returns that value's own span |
| `NativeScanner.MatchBracketExact` | python/vibap/claude_code_daemon.py:263-310 | the bracket matcher crosses exactly the text of an array or object, whatever its strings contain |
| `NativeScanner.SkipValueExact` | python/vibap/claude_code_daemon.py:312-337 | skipping a written value lands on its end |
| `NativeClient.ParseJsonString` | python/vibap/claude_code_daemon.py:238-261 | the C loop refines the string scanner |
| `NativeClient.FindMatchingBracket` | python/vibap/claude_code_daemon.py:263-310 | the C loop with depth and flags refines the bracket matcher |
| `NativeClient.SkipJsonValue` | python/vibap/claude_code_daemon.py:312-337 | the C function refines the value skipper |
| `NativeClient.FindObjectKeyValue` | python/vibap/claude_code_daemon.py:339-404 | the C loop over members refines the key search |
| `NativeClient.HasValidHookOutput` | python/vibap/claude_code_daemon.py:406-464 | the C checks refine the text-level acceptance test |
| `NativeClient.ExtractEnvelopeOutput` | python/vibap/claude_code_daemon.py:612-647 | the C function cuts exactly the enveloped output's span |
| `NativeClient.RunNativeClient` | python/vibap/claude_code_daemon.py:678-721 | the client emits exactly what the text-level decision accepts |
| `NativeRefinement.ValidHookTextIff` | python/vibap/claude_code_daemon_client.py:108-121 | the text of an output is accepted exactly if the parsed output is valid and its `continue` is absent or Boolean |
| `NativeRefinement.NativeDecidesAsPython` | python/vibap/claude_code_daemon_client.py:124-143 | the C decision on any written response agrees with the Python extractor, and emits the text of that same output |
| `ResponseWire.CutLine` | python/vibap/claude_code_daemon.py:601-605 | the buffer is cut at its first line end |
| `ResponseWire.ReadResponse` | python/vibap/claude_code_daemon.py:570-592 | the read loop returns a prefix of what the peer sent that stops at its end, at a newline or at the buffer limit |
| `ResponseWire.ReadJsonLine` | python/vibap/claude_code_daemon_client.py:78-90 | the chunk loop stops at the end or at a newline, and raises exactly once more than its limit has arrived |
| `NativeRefinement.TruncatedRejected` | python/vibap/claude_code_daemon.py:570-647 | a response cut short by the buffer is never accepted |
| `ResponseWire.ClientsOnTheWire` | python/vibap/claude_code_daemon.py:570-721 | from the bytes that arrived before the connection ended: exactly when each client accepts, and where both do, what C emits parses to the object that Python returns |
| `ResponseWire.ClientsPartIff` | python/vibap/claude_code_daemon_client.py:78-143 | on a whole response the clients part exactly at a non-Boolean `continue` and between their size limits |
| `ResponseWire.BetweenTheLimits` | python/vibap/claude_code_daemon_client.py:87-88 | for every size between the limits a response exists that C emits and Python refuses |
| `ResponseWire.ExtractRead` | python/vibap/claude_code_daemon_client.py:108-143 | extracting an output and reading it back commute |
| `NativeRefinement.ContinueNumberParts` | python/vibap/claude_code_daemon_client.py:108-121 | a response exists that Python accepts and the C client refuses |
| `PairInstall.FileSystem.CopyToStaging` | python/vibap/claude_code_daemon.py:827-860 | a staged copy has the source's content and the given mode, and a failed one leaves nothing |
| `PairInstall.FileSystem.StageExisting` | python/vibap/claude_code_daemon.py:863-878 | backs up content and mode, and refuses symlinks and non-files |
| `PairInstall.FileSystem.Restore` | python/vibap/claude_code_daemon.py:891-899 | puts the backup back, or removes what was not there before |
| `PairInstall.InstallPair` | python/vibap/claude_code_daemon.py:916-992 | returns exactly if nothing fails; leaves both files new, or everything as it was but for what a failing rollback could not put back |
| `PairInstall.InstallAllOrNothing` | python/vibap/claude_code_daemon.py:916-992 | with a working rollback the outcome is all or nothing, and no temporary file is left in any case |
| `BpfLower.LowerToPlan` | python/vibap/bpf_lower.py:368-530 | the seven passes return exactly if the mission is lowerable, and then give one entry per op by one precedence, the declared path and net lists, and exactly the declared tier-2 list in order |
| `BpfPaths.PlanPathsIff` | python/vibap/bpf_lower.py:272-299 | a path is in a plan exactly if it is absolute without a final slash, has no `..` segment and at most 32 segments, and the characters of a scope entry or of a policy's root spell it |
| `BpfPaths.LowerableIff` | python/vibap/bpf_lower.py:368-530 | lowering returns exactly if classes are known, policies load and, in strict mode, nothing spells a deeper path and no semantic policy is declared |
| `BpfPaths.FilesListedIff` | python/vibap/bpf_lower.py:430-471 | file ops are listed exactly if a scope entry spells an enforceable path or a subpath policy loads |
| `BpfPaths.PlanNetsIff` | python/vibap/bpf_lower.py:472-498 | the nets of a plan are the declared prefixes and domains that are addresses |
| `BpfNotes.PlanActionIff` | python/vibap/bpf_lower.py:368-530 | the action of every op in a plan, from class names, tools and what the entries spell |
| `BpfNotes.PlanTier2Iff` | python/vibap/bpf_lower.py:396-523 | the tier-2 list is exactly what the mission declares and the kernel does not enforce |
| `BpfNotes.NoPathIsLost` | python/vibap/bpf_lower.py:430-471 | a path that an entry spells is listed in the plan or left to tier 2, and never both |
| `BpfPaths.NormalizedIff` | python/vibap/bpf_lower.py:272-281 | which path the characters of an entry are normalized to |
| `BpfLower.PassAllowed` | python/vibap/bpf_lower.py:412-425 | an allowed tool never lifts a denial, and is recorded as overridden instead |
| `BpfLower.PassPolicies` | python/vibap/bpf_lower.py:455-481 | typed policies allowlist file ops even where their root is too deep, and collect paths, nets and hostnames in order |
| `BpfLower.ForbiddingIsMonotone` | python/vibap/bpf_lower.py:396-407 | forbidding one more tool permits no op and target that was not permitted |
| `BpfLower.DroppingClassesIsMonotone` | python/vibap/bpf_lower.py:384-394 | dropping classes permits nothing new while the list stays non-empty |
| `BpfLower.DroppingEveryClassLifts` | python/vibap/bpf_lower.py:384-394 | dropping every class newly permits exactly the ops that only the list denied, to the targets that an allowlist, if any, covers |
| `BpfPolicy.LookupIff` | python/vibap/bpf_lower.py:524-530 | in a plan an op has an action exactly if that entry is in it |
| `ToolProjection.LowerMission` | python/vibap/bpf_lower.py:225-530 | the compiler with the keyword projection meets the same precedence |
| `ToolProjection.ToolOpMeaning` | python/vibap/bpf_lower.py:225-255 | a name projects to the first op in priority order of which it has a keyword between separators |
| `ToolProjection.WholeName` | python/vibap/bpf_lower.py:225-255 | a name without underscores, dashes and white space is looked up whole |
| `ToolProjection.JoinedForbiddenDenies` | python/vibap/bpf_lower.py:396-407 | forbidding one tool of a joined name denies exactly the op of the name that comes first |
| `ToolProjection.JoinedNames` | python/vibap/bpf_lower.py:225-255 | a tool name joined from two names projects to whichever op comes first in the priority order |
| `AatGrants.ExtractTools` | python/vibap/aat_adapter.py:266-293 | the loops over map and list forms collect exactly the named tools, and raise exactly on constraints or an empty result |
| `AatGrants.ListedToolsMeaning` | python/vibap/aat_adapter.py:280-290 | a list of tools is refused exactly if an item carries more than a name, and otherwise names exactly what its items give |
| `AatGrants.DetailMeaning` | python/vibap/aat_adapter.py:403-425 | the detail of a grant is the only entry of the supported type among typed objects |
| `AatGrants.ToolsMeaning` | python/vibap/aat_adapter.py:266-293 | a grant's tools are the visible keys or the items its detail names, and exactly when reading them raises |
| `AatGrants.DepthMeaning` | python/vibap/aat_adapter.py:428-438 | which claims the depth and its limit are read from |
| `AatGrants.BudgetMeaning` | python/vibap/aat_adapter.py:296-308 | the budget is one declared in the three places and at most each of them, or the fallback; and exactly when reading it raises |
| `AatGrants.DescendantContained` | python/vibap/aat_adapter.py:338-382 | along any chain tools shrink, iat never falls, exp never rises, the mission stays, remaining depth and session lifetime never grow, and each hop adds one level |
| `AatGrants.HopsBounded` | python/vibap/aat_adapter.py:338-382 | a chain has at most root max depth less root depth hops |
| `AatGrants.SessionWithinMission` | python/vibap/aat_adapter.py:208-243 | a session's tools, calls and scope lie within the mission's, its time within grant and limit or one second, and its levels are those left |
| `AatGrants.BudgetNeverGrows` | python/vibap/aat_adapter.py:296-308 | for missions of at most 10^9 calls the effective budget never grows along a chain, declared or not |
| `AatGrants.BudgetGrowsIff` | python/vibap/aat_adapter.py:296-350 | the exact step at which it grows otherwise: no budget of its own, below a parent that declares less than the mission |
| `AatGrants.BudgetGrowsAbove` | python/vibap/aat_adapter.py:296-350 | such a chain exists for every mission of more than 10^9 calls |
| `AatGrants.ScopeNeverGrowsIff` | python/vibap/aat_adapter.py:311-382 | along a chain of any length no grant's scope goes beyond any ancestor's exactly if at each link the child declares, or takes from the mission, nothing beyond what its parent declares |
| `AatGrants.SilentChildRegainsScope` | python/vibap/aat_adapter.py:311-335 | a child that declares no scope under a restricted parent gets the mission's |
| `BudgetLedger.CallsConserved` | python/vibap/claude_code_hook.py:1098-1399 | over every run the calls of the parent, and what its usable children hold or spent, stay within its ceiling |
| `BudgetLedger.ParentPermittedIff` | python/vibap/claude_code_hook.py:1098-1399 | in every reachable state, exactly when a call of the parent is permitted, and that its count grows by the permitted calls whose receipts are appended |
| `BudgetLedger.ChildUsedIsItsCalls` | python/vibap/claude_code_hook.py:1161-1270 | over every run a recorded child has used exactly the calls it attempted since, up to its budget |
| `BudgetLedger.ReservedCoveredIff` | python/vibap/claude_code_hook.py:1103-1111 | used plus reserved stays within the ceiling exactly if no permitted call was unsynchronized where budget was reserved and no other call was left |
| `BudgetLedger.NoLossNeverBlind` | python/vibap/governed_subagent.py:994-1050 | no call is so if no spawn fails after reserving while there is no binding file |
| `BudgetLedger.LostReservationIsOvercommitted` | python/vibap/governed_subagent.py:1004-1026 | a run that uses two calls and has one reserved, of two |
| `BudgetLedger.EvidenceIsTrueBalanceIff` | python/vibap/claude_code_hook.py:861-887 | in every reachable state the evidence shows the true balance, its clamps idle, exactly if the call was synchronized and lost no reservation, or nothing is reserved; a permitted call had a call left for itself |
| `BudgetLedger.LostReservationIsNotShown` | python/vibap/claude_code_hook.py:1323-1332 | the denial after a spawn that failed late shows nothing reserved while the ledger holds a call |
| `BudgetLedger.UnboundCallIsNotShown` | python/vibap/claude_code_hook.py:1121-1141 | the denial of an unbound call shows nothing reserved while the ledger holds a call |
| `BudgetLedger.ReserveFacts` | python/vibap/claude_code_children.py:622-630 | whatever the spawn does, a reservation leaves the dispatch its call, and adds the budget exactly if it is new |
| `ApprovalRate.Tracker.Prune` | python/vibap/approvals.py:46-51 | the loop drops exactly the front times at or before the cutoff |
| `ApprovalRate.Tracker.RecordApproval` | python/vibap/approvals.py:53-59 | prunes and appends for the stripped operator, and refuses a blank one |
| `ApprovalRate.Tracker.Check` | python/vibap/approvals.py:61-67 | answers from the pruned queue, which it leaves pruned |
| `ApprovalRate.CheckCountsHistory` | python/vibap/approvals.py:46-67 | with clocks that do not go back, the queue answers as a count over the whole history in the window would |
| `ApprovalRate.GatedIffNoWindowOver` | python/vibap/approvals.py:53-67 | every window of every operator stays within the maximum exactly if each record is made where a check says yes |
| `ApprovalRate.ChecksBeforeRecords` | python/vibap/proxy.py:4211-4245 | two checks before two records leave one approval too many in a window |
| `ApprovalRate.BackwardClockOverfills` | python/vibap/proxy.py:4165 | with a clock that goes back, a run whose every record follows a check that says yes leaves three approvals in a window for two |
| `ApprovalRate.NoWindowExceeds` | python/vibap/approvals.py:53-67 | over every gated run no half-open window of the length, wherever it starts, holds more approvals than the maximum |

## Left out

- Signatures, JWT and Biscuit parsing, SHA-256, key loading and canonical JSON: foreign libraries, replaced by the assumptions above.
- File descriptors, fsync, sockets, timeouts, compiler invocation and interrupted system calls: only atomic replacement and mutual exclusion are kept.
- The receipt window on `iat` and the derived `parent_receipt_id` in `verify_chain`: a recount is compared at one moment, and the id is a prefix of the hash that is compared.
- Torn appends to a chain file: an append is one step.
- UTF-8 in chain files: tokens are ASCII, so bytes and characters are counted alike.
- HitIsRecount: that the handlers load and receipt with the same claims is a condition on the order of events, not derived from their code.
- NoWindowExceeds: times are real numbers, so floating-point rounding is not modelled.
- TouchesNoMoreIff: one matching step of the scope check; Unicode normalization, sanitizing, and the cwd and slash coercions around it are not modelled. The exact condition is for entries without `?` and brackets, or literal entries of the child; for others `TakenTouchesNoMore` gives a sufficient one. Membership in a bracket expression is a parameter.
- PermitsNoMoreIff: for exact paths and `ROOT/*`, the shapes whose roots the code resolves, where every root resolves; the file system is a parameter, taken at one moment, and the half from permission to containment needs a name that no file below the child's roots has.
- Persist: the byte limit of the stored file counts as a failed write.
- WriteRefusedOnlyByLimits: the byte limit of the stored file is part of the write flag, and an error after the new file is in place counts as stored.
- BlockReadsBack: child blocks are read from the facts that were written; the printed source through which the code reads them is lossy for quotes and newlines in values.
- ParseOfSerialize: a number is taken as the longest run of number characters; Python's own number grammar is narrower.
- InstallPair: removing temporary files always succeeds, and the source's one function is split along its steps.
- EvidenceIsTrueBalanceIff: per-class budgets and the closing of reservations, which no caller in the repository performs, are not part of the ledger.
- CallsConserved: an operating system error in the second reserve transaction, also one after the new file is in place, denies the call without a receipt and is not an event of the ledger.
- LowerToPlan: the recognizer of IP prefixes is a parameter of the theorems; tier-2 labels are values, not strings.
- LowerMission: lower-casing is a parameter, as Unicode case folding is not modelled.
- ExtractTools: `iat` and `exp` that are not JSON integers, and the parent-token hash binding, are not part of the grant checks.
- IssuedIsGranted: the default mission id is part of the input, and of the validation before issuing only the wildcard rule is kept.
- Biscuit's set semantics for repeated facts: a block is a list of facts, and a repeated one stays repeated.
- JSON objects with repeated keys, which no Python dictionary with string keys writes.
- Telemetry mapping, reports, the native-messaging host, profile parsing, fingerprinting, log rotation, scripts and demos: tables and formatting that would only add easy members.
