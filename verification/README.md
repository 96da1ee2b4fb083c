# A verified model of the TinyBFT replica

The repository is a Byzantine fault tolerant replica for small devices, after Castro and Liskov,
"Practical Byzantine Fault Tolerance" (OSDI 1999, sections 4.2 to 4.4), in which every store of
messages has a fixed size. This project models its protocol core, its stores, its state transfer,
its radio fragmentation and its client vote in Dafny, and proves what they keep.

## How it is laid out

* `Types`, `Arithmetic`: messages, symbolic digests, protocol parameters, quorum intersection.
* `ReplicaSpec`, `ViewChangeSpec`: the replica as a value. One function per routine of the source,
  with the same branches; the window of slices is indexed by offset from its head, so that a direct
  assignment to the head means what it means in the source.
* `Protocol`: the replicated system. Labelled steps: a correct replica reacts to a message that was
  sent, to a timer, to a request or to state transfer; a faulty one adds any message that it can
  authenticate. The network is a growing set of authenticated messages.
* `Invariants`, `Handlers`, `Safety`, `NewViews`, `RegionLaws`: the inductive invariant and what
  follows for all runs.
* `Executions`, `Reactions`, `StableMoves`, `ViewMoves`, `PreparedLists`: what each event makes a
  replica do and when, exactly and in terms of its fields, and what follows over runs.
* `Limits`, `LimitRuns`, `StableQuorums`, `PreparedSplit`: where the code does less than its
  documentation says, with a run that shows it and the exact condition under which it does it.
* `Builder`, `BuilderRuns`: what the builder of a New_view proves and when the verifier agrees,
  exactly, with runs in which they do not and in which a prepared request is left out.
* `Certificate`, `PreparedCert`, `AgreementRegion`, `CheckpointRegion`, `ViewInfo`, `Replica`: the
  same code as objects that change in place. Every method is proved to do what the function of the
  specification says, so the run-level theorems are about this code. `Tally` holds the laws of
  bounded vote counting.
* `StoreSpec`: which leaves are in step with memory, over runs of writes and checkpoints.
* `PartitionTree`, `Fetch`, `FetchProofs`, `FetchOrder`, `FetchRun`, `FetchStray`, `StateTransfer`: the Merkle
  tree, the breadth-first state fetch as a value with its convergence proof, and the state store
  that refines it.
* `EspNow`, `FragmentRuns`, `Reassembly`: splitting and reassembling radio messages. `ReplyVoting`:
  the client.

## What is assumed

* n <= 3f+1 replicas, at most f of them faulty; n = 3f+1 where a New_view is built. Every replica is
  one of the principals (`src/tbft_libbyz.c:190-195`). Thresholds are 2f and 2f+1 (`src/tbft_replica.c:159-160`), a certificate has f+1 value slots.
* Digests are injective and never zero. A message whose authenticator verifies for a correct
  replica was sent by it. A Status message carries no authenticator and can be anything.
* A correct replica does not lose its memory. Seqnos, views and ticks are unbounded integers.
* The head of the agreement region is never assigned a value below itself. Five places assign
  `ar.head` right after truncating (`src/tbft_replica.c:1022, 1477, 1706, 1842, 1993`); a step is in
  a run only if those assignments go forward (`Protocol.KeepsHead`, which looks at the state and the
  event before the step). `Limits.DirectHeadKeepsKeys` and `Limits.DirectHeadKeepsHistory` say exactly
  what the guard is for, and `LimitRuns.BackwardHeadVotesTwice` is a run that ends where it is needed.
* The application, the clock and the throttles answer through `ReplicaSpec.Env`: whether a request
  is accepted, the root digest after executing it, and whether a fetch or a repeated Commit is due.

Agreement does not rest on the textbook argument. Two correct replicas can prepare different
digests in one view, because the threshold is 2f and the primary's own Prepare counts: exactly when
the primary and at least 4f-n replicas are faulty (`PreparedSplit.OneViewSplits`). It rests on two facts: the digest a replica stores for a seqno
is written once, through all views, and each of the 2f+1 votes of a commit quorum copies it.

## Where code and comments disagree

* `src/tbft_state.c:305-308` says that a tree has a single level when `num_blocks <= p_children`.
  `tbft_ptree_compute_levels` gives one level for a single block only; the model follows the code.
* `src/tbft_replica.c:1163-1165` and `src/tbft_replica.c:2562-2566` speak of an f+1 prepare
  threshold; the code uses 2f.
* `tbft_cr_winning_digest` (`src/tbft_checkpoint_region.c:112-118`) looks a slot up by index and does
  not compare its seqno; see `StableQuorums.FetchMisreadsExactly` and `LimitRuns.FetchMisreadsVotes`.
* `src/tbft_state.c:152-159` calls a full snapshot record impossible. The record is emptied only when
  the stable point moves, the marks at every checkpoint, so it fills up in two intervals, and a block
  written then is not digested again; see `StoreSpec.WriteKeepsStep` and
  `StoreSpec.TwoIntervalsLoseStep`.
* The comment at `src/tbft_replica.c:2285-2288` takes a Meta_data for the root with nothing pending for
  proof that the state is in sync. The test does not ask for its seqno, so a late one of an earlier
  fetch ends a new fetch at once; see `FetchStrays.StrayChangesExactly`.
* Two branches are dead: the one of `handle_view_change` for a View_change beyond the target
  (`src/tbft_replica.c:1505-1526`), since collecting it has raised the target, and the self-rescue of
  `send_view_change` (`src/tbft_replica.c:3058-3060`), by the order of the counters.
* A comment at `src/tbft_view_info.c:132-135` asks for f+1 attesting View_changes; the code asks for
  2f+1, and so does the model.

## Model

| member | source | states |
|---|---|---|
| `Safety.Agreement` | src/tbft_replica.c:1256-1360 | Over all runs and views: two correct replicas never hold complete commit certificates for one seqno with different digests. |
| `Safety.QuorumsAgree` | src/tbft_replica.c:2648-2686 | Two sets of 2f+1 senders of Commits for one seqno, in any views, carry one digest: they share a correct replica, which sends one digest per seqno. |
| `Safety.EndorsesOnce` | src/tbft_prepared_cert.c:25-48 | Everything a correct replica ever sent for a seqno (Pre_prepare, Prepare, Commit, View_change entry) carries one digest. |
| `Safety.ProposalsAreWriteOnce` | src/tbft_prepared_cert.c:25-48 | Once a correct replica has accepted a digest for a seqno, what it stores at any later time and everything it has sent for that seqno carries that digest, through all view advances. |
| `Safety.StoredIsAccepted` | src/tbft_agreement_region.c:25-32 | In a run a stored Pre_prepare's seqno is its key, and its digest the first one accepted for it. |
| `Safety.NothingBelowTheHead` | src/tbft_replica.c:2612-2686 | Nothing new is proposed, voted for or listed for a seqno below a window head that the sender ever had. |
| `Safety.ExecutionsAgree` | src/tbft_replica.c:2688-2850 | Any two correct replicas, at any times, executed the same request at every seqno that both executed. |
| `Safety.ExecutedHasQuorum` | src/tbft_replica.c:2725-2757 | Every request that a correct replica executed has 2f+1 senders of Commits for its seqno with its digest. |
| `Safety.LogsAreContiguous` | src/tbft_replica.c:2688-2850 | A replica executes each seqno right after the one before it, skips ahead only by a jump, never repeats, and its execution point is the end of its log. |
| `Executions.EntriesHaveCauses` | src/tbft_replica.c:2688-2989 | In every step of every run a correct replica's log grows by the requests that it had stored for the following seqnos, in order, or by one jump to the stable point to which it moves in that step; nothing else. |
| `Executions.LoopExecutes` | src/tbft_replica.c:2688-2897 | The loop executes, in order, the requests stored, committed and accepted, votes for a checkpoint at each multiple of the interval and for no other, and stops only where the next seqno is not prepared, not committed for what is stored, or refused. |
| `Executions.PrepareIsCounted` | src/tbft_replica.c:1139-1250 | A Prepare is counted if and only if it is of this view, in the window, another replica's first one and for the stored digest; with 2f the own Commit is sent unless it was, the prepared point moves and what is committed is executed. |
| `Executions.CommitIsCounted` | src/tbft_replica.c:1256-1360 | A Commit is counted if and only if it is of this view, in both windows, not against what is stored, another replica's first one and has a value slot; a prepared seqno without a quorum has its Commit repeated, one with a quorum starts the loop. |
| `Executions.LastCommitExecutes` | src/tbft_replica.c:1256-1360 | A counted Commit that leaves the next seqno prepared, committed for what is stored and accepted executes the stored request. |
| `Executions.LastPrepareExecutes` | src/tbft_replica.c:1244-1247 | So does a counted Prepare that comes after all the Commits. |
| `Safety.LogsArePrefixes` | src/tbft_replica.c:2688-2850 | When neither replica jumped, one execution log is a prefix of the other. |
| `Safety.StableCheckpointsAgree` | src/tbft_replica.c:2853-2886 | No two correct replicas ever see a stable checkpoint for one seqno with different digests. |
| `Safety.CountersAreOrdered` | src/tbft_replica.c:2899-2963 | In every state: 0 <= quorum_last_stable <= last_stable <= last_executed <= last_prepared <= last_stable + W, and the state's stable point equals last_stable. |
| `Safety.NothingGoesBack` | src/tbft_replica.c:2899-2963 | Between any two states of a run no counter, window head, log or accepted digest of a correct replica goes back, and no message is unsent. |
| `Safety.RunInv` | src/tbft_replica.c:911-1411 | The invariant (window, history, endorsements, checkpoints, log, counters, collected View_changes) holds in every state of every run. |
| `Safety.StepKeeps` | src/tbft_replica.c:278-794 | Every step, of a correct replica reacting to any event or of a faulty one adding any message it can authenticate, keeps the invariant and goes forward. |
| `Safety.ViewChangeReportsStable` | src/tbft_replica.c:3051-3097 | Every View_change reports exactly the sender's last stable seqno (the self-rescue is dead) and lists each seqno once, in increasing order. |
| `PreparedLists.ViewChangeIs` | src/tbft_replica.c:3026-3135 | A View_change is for a later view, reports the stable seqno, and lists exactly the prepared seqnos between stable and prepared point, each at the place that its number of prepared predecessors gives, with its digest and the current view, as far as they fit. |
| `PreparedLists.OwnIsCollected` | src/tbft_replica.c:3026-3135 | After sending it the replica is in that view change and has collected its own View_change among what it had for that view. |
| `PreparedLists.ExecutedIsListed` | src/tbft_replica.c:3080-3098 | Over all runs and with room for a window of entries, a correct replica's View_change lists every request that it has executed above its stable point and still holds prepared. |
| `Safety.PrepareWinnerIsPp` | src/tbft_prepared_cert.c:76-90 | A value that reaches the prepare threshold is the stored Pre_prepare's digest, so the digest comparison at the end of is_complete never fails. |
| `RegionLaws.RecycledSlotIsNeverMet` | src/tbft_prepared_cert.c:33-38 | In a run the branch that overwrites the Pre_prepare of a recycled slot is never taken: a stored one gives way only to the same digest in a later view. |
| `Proposals.SplitsBlameThePrimary` | src/tbft_replica.c:911-1000 | At whatever times, two correct replicas that store different digests for one seqno in one view have a faulty primary of that view to blame. |
| `PreparedSplit.OneViewStores` | src/tbft_replica.c:911-1000 | Some run makes two correct replicas store different digests for one seqno in a given view if and only if its primary is faulty and two replicas are correct. |
| `PreparedSplit.SplitNeedsFaulty` | src/tbft_replica.c:1139-1250 | Two correct replicas prepared for different digests at one seqno, at whatever times and in whatever views, are two, and at least 4f-n replicas are faulty: everybody who voted for both. |
| `PreparedSplit.PreparesCanSplit` | src/tbft_replica.c:2562-2587 | With a faulty primary and at least 4f-n faulty replicas, in every configuration, some run prepares two correct replicas for different digests at one seqno in the primary's view: the textbook lemma fails. |
| `PreparedSplit.OneViewSplits` | src/tbft_replica.c:159-160 | The textbook lemma for a view fails if and only if the view's primary is faulty and at least 4f-n replicas are. |
| `PreparedSplit.SomeSplit` | src/tbft_replica.c:159-160 | Different digests can be prepared for one seqno in whatever views if and only if f >= 1 and at least 4f-n replicas are faulty; with n = 4 no replica needs to be. |
| `Handlers.HandlePrePrepareGood` | src/tbft_replica.c:911-1133 | The Pre_prepare handler, with or without a view advance, keeps the invariant of its replica, moves nothing back and endorses nothing below the window. |
| `Handlers.HandlePrepareGood` | src/tbft_replica.c:1139-1250 | The same for the Prepare handler with the Commit it sends and the executions it triggers. |
| `Handlers.HandleCommitGood` | src/tbft_replica.c:1256-1360 | The same for the Commit handler. |
| `Handlers.HandleCheckpointGood` | src/tbft_replica.c:1366-1411 | The same for the Checkpoint handler and the stable point it moves. |
| `Handlers.ExecuteGood` | src/tbft_replica.c:2688-2897 | The same for the whole execution loop: it logs only requests whose digest has a commit quorum. |
| `Handlers.MarkStableGood` | src/tbft_replica.c:2899-2989 | The same for moving the stable point, by a quorum, by a fetch or not at all. |
| `Handlers.HandleViewChangeGood` | src/tbft_replica.c:1417-1727 | The same for collecting View_changes, advancing the view, and building and installing a New_view. |
| `Handlers.ReactGood` | src/tbft_replica.c:278-794 | The same for every event a correct replica can react to. |
| `Reactions.ProposesExactly` | src/tbft_replica.c:2386-2610 | A primary proposes if and only if it is not changing views, its next seqno is in both windows and the slice takes the proposal; it stores it, votes for it, sends both and moves on by one. |
| `Reactions.ProposesInOrder` | src/tbft_replica.c:2386-2610 | Over all runs, a primary that stays in its view proposes for the following seqno next. |
| `Reactions.PrePrepareIsTaken` | src/tbft_replica.c:911-1133 | A Pre_prepare is followed to its view if and only if it is from another primary, not older and in the window; there it is stored if and only if it is genuine and the slice takes it, and answered with a Prepare unless one was recorded. |
| `Reactions.OwnPrepareIsSent` | src/tbft_replica.c:2612-2646 | The own Prepare is sent, with the stored digest, if and only if the replica is not the primary, has a proposal stored and has not recorded one. |
| `StableMoves.MarkStableMarks` | src/tbft_replica.c:2899-2989 | The stable point moves if and only if it is behind and no quorum in the slot speaks for another root; a contradicting quorum begins a fetch when it may, and what moves with the stable point is exact. |
| `StableMoves.CheckpointIsCounted` | src/tbft_replica.c:1366-1411 | A Checkpoint vote of another replica for a multiple of the interval is stored as its slot has room, and the one that completes a quorum asks to move the stable point. |
| `StableMoves.OwnCheckpointIsTaken` | src/tbft_replica.c:2853-2886 | The own root is recorded under its seqno, voted for, broadcast, and may complete a quorum. |
| `StableMoves.FetchFinishes` | src/tbft_replica.c:2365-2379 | The end of a fetch takes over the root, asks to move the stable point and leaves the next seqno beyond it. |
| `StableMoves.RecordIsRepeated` | src/tbft_state.c:486-499 | A checkpoint is repeated if and only if its slot still records that seqno, with the root that was voted for before. |
| `ViewMoves.StatusIsBelieved` | src/tbft_replica.c:1926-2003 | A Status is believed if and only if it is another replica's, of a later view, and not more than ten views ahead without being a window ahead; what changes is exact. |
| `ViewMoves.CollectsExactly` | src/tbft_view_info.c:26-58 | A View_change is collected if and only if it is for the target view or a later one and its sender's first for it; a later one starts over. |
| `ViewMoves.ViewChangeIsHandled` | src/tbft_replica.c:1417-1727 | The View_change that completes 2f+1 for a view of this primary is answered with the New_view built; one that is not collected is followed to its view if that is later. |
| `ViewMoves.NewViewIsInstalled` | src/tbft_replica.c:1733-1909 | An accepted New_view is installed, any other changes nothing. |
| `ViewMoves.InstallsExactly` | src/tbft_replica.c:1808-1857 | View, stable, execution and prepared points, log, both regions and collector after a New_view, and the next seqno: one past the largest of low bound, own progress and all proofs. |
| `ViewMoves.BuiltBoundsAre` | src/tbft_view_info.c:70-99 | The bounds of a New_view that is built are the largest stable seqno that any collected sender reports, faulty or not, and the window after the smallest. |
| `NewViews.AcceptedProofsAreConsistent` | src/tbft_view_info.c:132-198 | No two proofs of a New_view that a correct replica accepts name one seqno with different digests. |
| `NewViews.AcceptedProofsRespectCommits` | src/tbft_view_info.c:132-198 | No proof of an accepted New_view contradicts a commit quorum formed at any time, before or after. |
| `NewViews.AcceptedExactly` | src/tbft_view_info.c:101-198 | A New_view is accepted if and only if it is not older, for the collected view, from its primary, its bounds are between each of at least 2f+1 collected stable seqnos and one window after it, and 2f+1 senders list each of its at most W proofs. |
| `NewViews.AcceptedStaysNear` | src/tbft_view_info.c:112-130 | Over all runs, an accepted New_view moves nobody's stable point more than one window beyond the stable point that some correct replica has reached. |
| `Builders.BuiltNewViewVerifiesExactly` | src/tbft_replica.c:1535-1644 | With n = 3f+1, the New_view built from any quorum of collected View_changes passes verify_nv at whoever collected the same ones if and only if their last stable seqnos are within one window and every pair with room that is counted 2f+1 times is listed by 2f+1 senders. |
| `Builders.BuiltNewViewVerifies` | src/tbft_replica.c:1535-1644 | When no View_change repeats an entry, if and only if the last stable seqnos are within one window. |
| `Builders.ProofsAreAttested` | src/tbft_replica.c:1558-1644 | All proofs that the builder appends are attested by 2f+1 distinct senders if and only if every pair with room that is counted 2f+1 times is listed by as many senders. |
| `Builders.BuiltProofIsAttested` | src/tbft_replica.c:1558-1644 | When no View_change repeats an entry, every proof has 2f+1 distinct collected View_changes that list it. |
| `Builders.BuilderProvesExactly` | src/tbft_replica.c:1553-1644 | Whatever the View_changes are like, the New_view proves exactly the pairs within its bounds that are counted 2f+1 times and are among the first W different pairs looked up, with room left in the message. |
| `Builders.ProofsCarryView` | src/tbft_replica.c:1636-1639 | Every proof carries the view before the builder's, or zero. |
| `Builders.TableIsPrefix` | src/tbft_replica.c:1592-1610 | The counting table holds the first W different pairs in the order of looking up, each with all its appearances. |
| `Builders.FloodingHidesTheRest` | src/tbft_replica.c:1592-1610 | A View_change of the lowest sender that lists W different pairs within the bounds fills the table: no other pair is proven, whoever lists it. |
| `BuilderRuns.PreparedEntryIsHidden` | src/tbft_replica.c:1592-1610 | A run in which all three correct replicas list the request that they have prepared, the primary has collected their View_changes and a flooding one, and the New_view it sends does not prove that request. |
| `BuilderRuns.RepeatedEntryIsRejected` | src/tbft_replica.c:1592-1610 | A run in which a faulty replica's View_change lists twice what the next primary has prepared: the correct primary counts it twice, proves it and sends a New_view that a correct backup holding the same View_changes rejects. |
| `BuilderRuns.CorrectOnesDoNotRepeat` | src/tbft_replica.c:3051-3097 | No View_change collected from a correct replica repeats an entry. |
| `NewViews.FewerViewChangesWiden` | src/tbft_view_info.c:70-99 | With fewer View_changes the lower bound can only fall and the upper bound only rise. |
| `NewViews.FoldsAreExtremes` | src/tbft_view_info.c:70-99 | The two running bounds are attained, and are the largest and the smallest last stable seqno collected. |
| `Limits.DirectHeadKeepsKeys` | src/tbft_replica.c:1021-1022 | Truncating and then assigning the head keeps every Pre_prepare under its own seqno if and only if the head does not move back or nothing is stored. |
| `Limits.DirectHeadKeepsHistory` | src/tbft_replica.c:1705-1706 | It keeps the memory of what was first accepted if and only if the head does not move back or nothing at or above the new head was ever accepted. |
| `LimitRuns.BackwardHeadVotesTwice` | src/tbft_replica.c:1841-1842 | A run after which a correct replica that voted for one digest at seqno 3 receives a New_view it accepts with a low bound behind its head; only installing that one drops the guard, loses the history and makes it vote for a second digest at seqno 3. |
| `StableQuorums.ConfirmedIsBacked` | src/tbft_replica.c:2943-2963 | Over all runs in which no fetch ends on votes for another seqno, every seqno that a correct replica takes for confirmed by a quorum has the Checkpoints of 2f+1 replicas for one digest. |
| `StableQuorums.FetchMisreadsExactly` | src/tbft_checkpoint_region.c:112-118 | The end of a fetch confirms a seqno without 2f+1 votes for it in its slot if and only if the slot holds another seqno with a quorum for the fetched root. |
| `StableQuorums.ReactConfirms` | src/tbft_replica.c:2946-2954 | Every event but such an end of a fetch moves the confirmed seqno only to one with a checkpoint quorum. |
| `LimitRuns.FetchMisreadsVotes` | src/tbft_checkpoint_region.c:112-118 | A run at the end of which a correct replica takes seqno 5 for confirmed by a quorum although only two replicas could have voted for it: the fetch has read the votes for seqno 1 in the same slot. |
| `Limits.StoredVotesAreForTheSeqno` | src/tbft_checkpoint_region.c:31-41 | Right after a vote for a seqno was stored, a winner reported for it has the Checkpoints of 2f+1 replicas for that seqno; votes for an aliasing one never count. |
| `Limits.CheckpointsHaveTheirOwnSlots` | src/tbft_checkpoint_region.c:4-10 | The multiples of the interval in [stable, stable + W] have pairwise distinct slots. |
| `Limits.SoundIsTidy` | src/tbft_replica.c:1183-1210 | What every state of a run satisfies includes all that the replica object's methods rely on. |
| `RegionLaws.TruncateRestricts` | src/tbft_agreement_region.c:118-146 | As a map from seqnos, truncation keeps exactly the entries at or above the new head, unchanged, for jumps of any size; the rest of the window is empty. |
| `RegionLaws.AddsTouchOneSeqno` | src/tbft_agreement_region.c:52-104 | Adding a vote or a Pre_prepare changes what is stored for its own seqno only. |
| `AgreementRegions.MaskIsRemainder` | src/tbft_agreement_region.h:69-75 | Masking an index with a power of two less one is the remainder by it. |
| `AgreementRegions.AgreementRegion.constructor` | src/tbft_agreement_region.c:4-19 | A fresh region is the empty window that starts at seqno 1. |
| `AgreementRegions.AgreementRegion.SliceOf` | src/tbft_agreement_region.h:69-75 | The slice found by masking is the one that holds what the window has for the seqno. |
| `AgreementRegions.AgreementRegion.StorePp` | src/tbft_agreement_region.c:25-32 | Stores in range and only where the slice accepts it, and changes the window at that seqno alone. |
| `AgreementRegions.AgreementRegion.LoadPp` | src/tbft_agreement_region.c:34-46 | Returns the stored Pre_prepare of a seqno in the window, otherwise nothing. |
| `AgreementRegions.AgreementRegion.AddPrepare` | src/tbft_agreement_region.c:52-72 | Counts a Prepare, the own one or another's, as the window model does, and says whether it was counted. |
| `AgreementRegions.AgreementRegion.Prepared` | src/tbft_agreement_region.c:74-80 | The same for the slice of a seqno in the window; no for any other seqno. |
| `AgreementRegions.AgreementRegion.AddCommit` | src/tbft_agreement_region.c:86-104 | Counts a Commit, the own one or another's, as the window model does. |
| `AgreementRegions.AgreementRegion.CommitValue` | src/tbft_agreement_region.c:106-112 | Finds a digest with a commit quorum if and only if there is one. |
| `AgreementRegions.AgreementRegion.ClearFirst` | src/tbft_agreement_region.c:129-135 | The capped clear loop empties the first slices of the window and leaves the others alone. |
| `AgreementRegions.AgreementRegion.Truncate` | src/tbft_agreement_region.c:118-146 | The circular buffer after truncation is the shifted window, also when the jump exceeds a whole turn. |
| `AgreementRegions.AgreementRegion.SetHead` | src/tbft_replica.c:1022 | A direct assignment to the head shifts the window under the slices. |
| `Certificates.Certificate.constructor` | src/tbft_certificate.c:38-43 | A fresh certificate holds no vote. |
| `Certificates.Certificate.Add` | src/tbft_certificate.c:53-92 | A vote is counted if and only if its sender has not voted and its value is known or a value slot is free; bitmap, counts and values then represent one vote more. |
| `Certificates.Certificate.AddMine` | src/tbft_certificate.c:94-137 | The same for the own vote, remembering which value it is; a vote that finds no slot is not marked. |
| `Certificates.Certificate.CValue` | src/tbft_certificate.c:139-147 | A winner is returned if and only if there is one; of several, the one that was first voted for. |
| `Certificates.Certificate.IsComplete` | src/tbft_certificate.c:149-152 | Tells whether some value reached the threshold. |
| `Certificates.Certificate.Clear` | src/tbft_certificate.c:45-51 | Forgets all votes. |
| `Tallies.BitmapIsSumOfCounts` | src/tbft_certificate.c:53-92 | The number of marked senders is the sum of the match counts. |
| `Tallies.WinnerIsCounted` | src/tbft_certificate.c:139-147 | A digest has a quorum exactly when its stored count reaches the threshold. |
| `Tallies.NobodyIsStarved` | src/tbft_certificate.c:53-92 | If fewer senders than there are value slots cast anything else, every other sender is counted for the common digest, in a certificate and in a checkpoint slot, in any order and with any repetitions. |
| `Tallies.BoundedTallyIsLossless` | src/tbft_checkpoint_region.c:49-83 | When at most 3f+1 senders vote once each, a certificate with f+1 value slots and a checkpoint slot report a 2f+1 quorum for exactly the digests for which an unlimited tally does. |
| `Tallies.OrderDoesNotMatter` | src/tbft_certificate.c:53-92 | The quorums a certificate reports do not depend on the order of the votes. |
| `PreparedCerts.PreparedCert.AddPp` | src/tbft_prepared_cert.c:22-60 | Accepts a Pre_prepare into an empty or recycled slot, or the same digest in a later view, and nothing else. |
| `PreparedCerts.PreparedCert.IsComplete` | src/tbft_prepared_cert.c:76-90 | True if and only if the value that reached the threshold, of several the one first voted for, is the Pre_prepare's digest; without another such value, exactly with a quorum for that digest. |
| `PreparedCerts.LargerGroupsHaveOneWinner` | src/tbft_prepared_cert.c:76-90 | From f = 2 on no other value can have a prepare quorum beside the Pre_prepare's digest. |
| `CheckpointRegions.CheckpointSlot.Store` | src/tbft_checkpoint_region.c:20-84 | A slot for another seqno is reset, a second message of a sender ignored, a new candidate taken while there is room; it reports a quorum exactly when this message was counted and some candidate has one. |
| `CheckpointRegions.CheckpointSlot.LeaderHasQuorum` | src/tbft_checkpoint_region.c:73-83 | The running leader has a quorum exactly when any digest has. |
| `CheckpointRegions.CheckpointRegion.Store` | src/tbft_checkpoint_region.c:20-84 | Changes the slot of the seqno and no other. |
| `CheckpointRegions.CheckpointRegion.WinningDigest` | src/tbft_checkpoint_region.c:112-118 | Returns the winner of the slot found by index, which is unique. |
| `CheckpointRegions.CheckpointRegion.Truncate` | src/tbft_checkpoint_region.c:168-177 | Empties exactly the slots at or below the stable seqno. |
| `ViewInfos.Collector.CollectVc` | src/tbft_view_info.c:27-63 | A View_change for a later view resets the collection, one for an earlier view or a second one of a sender is refused, any other is recorded. |
| `ViewInfos.Collector.ComputeMinMax` | src/tbft_view_info.c:70-99 | The loop computes the largest last stable seqno and the smallest one plus the window, or the defaults when there is none. |
| `ViewInfos.Collector.IsAttested` | src/tbft_view_info.c:148-196 | The early-stopping count answers whether 2f+1 distinct collected View_changes list the pair. |
| `ViewInfos.Collector.VerifyNv` | src/tbft_view_info.c:101-199 | Accepts exactly the New_views of the target view with bounds within the computed ones, a quorum collected and every proof attested. |
| `ViewInfos.Collector.CountPrepared` | src/tbft_replica.c:1553-1610 | The nested counting loops compute the table of the specification in their fixed array. |
| `ViewInfos.Collector.BuildNewView` | src/tbft_replica.c:1530-1644 | The New_view sent is the specified one, with at most as many proofs as fit. |
| `Replicas.Replica.constructor` | src/tbft_replica.c:132-234 | A fresh replica is in the initial state of the protocol. |
| `Replicas.Replica.SendPrepare` | src/tbft_replica.c:2612-2646 | A backup with a stored Pre_prepare votes for its digest and broadcasts only if the vote was newly recorded. |
| `Replicas.Replica.SendCommit` | src/tbft_replica.c:2648-2686 | The Commit carries the stored Pre_prepare's digest; repeating it changes nothing. |
| `Replicas.Replica.SendPrePrepare` | src/tbft_replica.c:2386-2610 | The primary proposes at its next seqno in the window, stores the proposal, counts its own Prepare and broadcasts both, or does nothing. |
| `Replicas.Replica.HandlePrePrepare` | src/tbft_replica.c:911-1133 | Checks, view advance, storing, next seqno and Prepare are those of the specification, whenever the head does not move back. |
| `Replicas.Replica.HandlePrepare` | src/tbft_replica.c:1139-1250 | Counting, prepared point, own Commit and execution are those of the specification. |
| `Replicas.Replica.HandleCommit` | src/tbft_replica.c:1256-1360 | Counting, repeated Commit and execution are those of the specification. |
| `Replicas.Replica.ExecuteCommitted` | src/tbft_replica.c:2688-2897 | The loop executes, checkpoints and stops as specified, and the messages it sends are the union over its iterations. |
| `Replicas.Replica.TakeCheckpoint` | src/tbft_replica.c:2853-2886 | Records the root, stores the own vote before broadcasting it and moves the stable point if that completes a quorum. |
| `Replicas.Replica.MarkStable` | src/tbft_replica.c:2899-2989 | A mismatching quorum starts a fetch instead; otherwise counters, regions and the fill request move as specified. |
| `Replicas.Replica.HandleCheckpoint` | src/tbft_replica.c:1366-1411 | Unaligned, own and foreign-id messages change nothing; a completed quorum moves the stable point. |
| `Replicas.Replica.HandleViewChange` | src/tbft_replica.c:1417-1727 | Collecting, catching up with a later view, and building, sending and installing a New_view are those of the specification. |
| `Replicas.Replica.HandleNewView` | src/tbft_replica.c:1733-1909 | Installs exactly the New_views that are not older, come from their primary, verify and fit the window. |
| `Replicas.Replica.InstallNewView` | src/tbft_replica.c:1808-1857 | View, next seqno, stable point, execution and prepared points, both regions and the collector after a New_view. |
| `Replicas.Replica.EnterView` | src/tbft_replica.c:1815-1828 | The next seqno is one past the largest of the low bound, local progress and every proof. |
| `Replicas.Replica.HandleStatusView` | src/tbft_replica.c:1926-2003 | The catch-up with a later view reported by a Status, and the far-ahead guard. |
| `Replicas.Replica.ListPrepared` | src/tbft_replica.c:3080-3098 | The entries of a View_change are the prepared seqnos above the stable point, in order, as many as fit. |
| `Replicas.Replica.SendViewChange` | src/tbft_replica.c:3026-3135 | Target view, reset, reported stable seqno, entries and own collection are those of the specification. |
| `Replicas.Replica.ResendCheckpoint` | src/tbft_state.c:486-499 | A recorded checkpoint is sent again only while its slot still holds that seqno, and carries the recorded digest. |
| `Replicas.Replica.FinishFetch` | src/tbft_replica.c:2365-2379 | At the end of a fetch the stable point moves and the next seqno stays beyond it. |
| `PartitionSpec.ComputeLevels` | src/tbft_partition.c:10-23 | The least number of levels with room for all blocks; above the maximum exactly when there are fewer than two children or the maximum does not suffice. |
| `PartitionSpec.LeastIsLeast` | src/tbft_partition.c:10-23 | No smaller number of levels has room. |
| `PartitionSpec.NodesAtLevel` | src/tbft_partition.c:29-37 | p^level, or the sentinel exactly when that is above a million. |
| `PartitionSpec.SlicesAreDisjoint` | src/tbft_partition.c:74-80 | The per-level slices of the backing memory do not overlap. |
| `PartitionTrees.InitTree` | src/tbft_partition.c:39-88 | Succeeds exactly when the least number of levels is allowed and no level is too large, with an all-zero tree of that size. |
| `PartitionTrees.PartitionTree.UpdateLeaf` | src/tbft_partition.c:97-170 | After any update every node, the root included, equals the from-scratch digest of the leaf vector; the leaf vector changes at the block alone. |
| `PartitionTrees.PartitionTree.Rehash` | src/tbft_partition.c:128-167 | Re-hashing one parent makes its whole level right again and touches no other level. |
| `PartitionSpec.OthersUnaffected` | src/tbft_partition.c:123-168 | A leaf matters only to the nodes above it. |
| `PartitionSpec.NodeDeterminesLeaves` | src/tbft_partition.c:123-168 | Two trees of equal dimensions agree at a node if and only if they agree on all leaves below it. |
| `PartitionSpec.ZeroMeansUntouched` | src/tbft_partition.c:68-69 | A node is zero if and only if nothing below it was ever stored. |
| `FetchRuns.FetchConverges` | src/tbft_state.c:290-484 | Against one quiescent replier in order, after at most 2*num_blocks-1 replies nothing is under way, and the fetch is over if and only if every leaf asked for is the hash of its block: then with the replier's leaves, root and differing blocks, otherwise stuck. Until then n_data_pending is the number of unanswered and refused block requests, the queue is within capacity and, once the root is answered, something is missing. |
| `FetchStrays.ConvergesAmongStrays` | src/tbft_replica.c:2265-2380 | Among replies to other fetches, interleaved anywhere, a fetch comes to the same end, unless one is a Meta_data for the root while no block is pending. |
| `FetchStrays.StraysAreIgnored` | src/tbft_replica.c:2265-2380 | It goes through the very same states as without them. |
| `FetchStrays.StrayChangesExactly` | src/tbft_replica.c:2285-2330 | A reply to another fetch changes something if and only if it is a Meta_data for the root while no block is pending: then the fetch is over as it is. |
| `FetchStrays.LateRootEndsFetch` | src/tbft_replica.c:2285-2330 | A late answer for the root of an earlier fetch ends a new one before anything has been compared. |
| `FetchStrays.DataChanges` | src/tbft_state.c:399-453 | A Data reply changes something if and only if it belongs to the fetch under way and its block exists, is what its digest says and was not received: then exactly that block, its leaf and the bookkeeping. |
| `FetchStrays.MetaChanges` | src/tbft_state.c:330-397 | A Meta_data changes the queue only, and only if it belongs to the fetch under way and is for an inner node that exists; it appends differing children. |
| `FetchStrays.NextIsSent` | src/tbft_state.c:455-475 | Sending marks the first request not yet sent, and counts a block as pending if and only if it has not been received. |
| `FetchRuns.OneDelivery` | src/tbft_replica.c:2265-2380 | Each reply keeps the breadth-first invariant with one more request answered, or is the last one, which ends the fetch or leaves it stuck as the replier's leaves have it. |
| `FetchRuns.RepairedUnlessStale` | src/tbft_state.c:370-396 | Every fetch that ends leaves a given block as its replier has it, whichever replier holds a true one, if and only if the local leaf is not the hash of something other than the local block, or it is the only block. |
| `FetchRuns.FetchedBlocksAgree` | src/tbft_state.c:399-453 | Starting from a memory in step with its tree, every block that is not marked as modified is the replier's at the end wherever the replier's leaf is its hash. |
| `FetchRuns.SafeWritesFetchRight` | src/tbft_state.c:135-230 | After a run in which every write found its block marked, room for a snapshot or a fitting leaf, and a checkpoint, that holds for every block. |
| `FetchRuns.StaleBlockSurvives` | src/tbft_state.c:370-396 | A block whose leaf is the hash of something else is not fetched from a replier that holds that, and the fetch ends with the stale block. |
| `FetchRuns.TwoIntervalsMisleadFetch` | src/tbft_state.c:152-229 | Two intervals of writes under one stable point lead there. |
| `FetchRuns.NoneRefusedIffHashed` | src/tbft_state.c:416-422 | Of all blocks asked for none is refused if and only if each leaf asked for is the hash of its block; in a one-level tree the only leaf is always asked for. |
| `FetchRuns.FetchingIsInProgress` | src/tbft_state.c:399-453 | In every state of a fetch the pending counter is the number of unanswered and refused block requests, and the queue has fewer than 2*num_blocks entries. |
| `FetchRuns.EnqueueIsNewNodes` | src/tbft_state.c:370-396 | The comparison loop enqueues exactly the differing children, and never meets a full queue. |
| `FetchRuns.DispatchSendsAll` | src/tbft_state.c:455-475 | Sending on sends everything new, in order, and counts every block request as pending. |
| `FetchOrder.NoneIsMissed` | src/tbft_state.c:370-396 | When all requests have been answered, every differing block was among them: skipping equal subtrees loses nothing. |
| `FetchOrder.OrderGoesOn` | src/tbft_state.c:370-396 | Level order, distinctness and completeness of the requests survive each answer. |
| `FetchOrder.OrderIsShort` | src/tbft_state.c:384-395 | All requests ever made, with the next node's children, number at most 2*num_blocks-1, given at least three children per node. |
| `FetchProofs.FewNodes` | src/tbft_config.h:104-105 | With at least three children and the least number of levels a tree has at most 2*num_blocks-1 nodes with a block below them. |
| `StoreSpec.WriteKeepsStep` | src/tbft_state.c:135-170 | A write leaves its block marked if and only if it was or the record of the stable checkpoint holds fewer than num_blocks old blocks, and keeps the tree in step with memory if and only if that holds or the leaf fits the new contents. |
| `StoreSpec.CheckpointKeepsStep` | src/tbft_state.c:199-230 | A checkpoint neither repairs nor breaks the step, and where there is step leaves no block whose leaf is not its hash. |
| `StoreSpec.StaysInStep` | src/tbft_state.c:135-284 | Through any run of writes, checkpoints, stable points and received blocks the tree stays in step if and only if every write was safe. |
| `StoreSpec.SafeUntilCheckpoint` | src/tbft_state.c:266-284 | From a move of the stable point to the next checkpoint every write is safe. |
| `StoreSpec.StableEmptiesItsRecord` | src/tbft_state.c:266-284 | Only moving the stable point forward empties a record, the one that its interval gives, and no other. |
| `StoreSpec.TwoIntervalsLoseStep` | src/tbft_state.c:152-229 | When every block was written in one interval and one of them again in the next, the stable point being where it was, that block is neither marked nor in step, and the next checkpoint has the leaves of the one before it. |
| `StateTransfer.StateStore.Snapshot` | src/tbft_state.c:135-170 | Marks a block and counts its old contents, unless it is marked or the record is full. |
| `StateTransfer.StateStore.MarkStable` | src/tbft_state.c:266-284 | Moves the stable point forward and empties the record of the new one only. |
| `StateTransfer.StateStore.Checkpoint` | src/tbft_state.c:199-230 | Digests the marked blocks again, forgets the marks, keeps the counts and returns the root; the tree is in step afterwards if and only if it was. |
| `StateTransfer.StateStore.Modify` | src/tbft_state.c:135-170 | A block written after copy-on-write, with the branch for a full record: the step is kept if and only if the write was safe. |
| `StateTransfer.StateStore.StartFetch` | src/tbft_state.c:290-328 | The state after starting a fetch, with the single-level case. |
| `StateTransfer.StateStore.HandleMetaData` | src/tbft_state.c:330-397 | Refusals and the comparison loop are those of the specification. |
| `StateTransfer.StateStore.HandleData` | src/tbft_state.c:399-453 | A block is written once, only with the right digest, together with its leaf; the fetch completes exactly when nothing is pending or unsent. |
| `StateTransfer.StateStore.NextFetchReq` | src/tbft_state.c:455-475 | Returns and marks the first request not yet sent, and counts an outstanding block. |
| `StateTransfer.StateStore.SendRequests` | src/tbft_replica.c:2331-2348 | The sending loop sends every request that is left, in queue order. |
| `StateTransfer.StateStore.OnMetaData` | src/tbft_replica.c:2265-2349 | The Meta_data handler: compare, finish at the root if nothing is left, or send on. |
| `StateTransfer.StateStore.HandleFetch` | src/tbft_replica.c:2158-2259 | Answers exactly the requests for existing nodes, a leaf with its block and digest and an inner node with its children's digests, as the replier of the convergence proof does, and changes nothing. |
| `Fragments.Split` | src/tbft_transport_espnow.c:427-531 | The splitting loop produces exactly the numbered fragments of the message, in order. |
| `FragmentProofs.RoundTrip` | src/tbft_transport_espnow.c:250-305 | Feeding the fragments of a message in any order with duplicates completes exactly on the last missing one, and yields the original bytes and length. |
| `FragmentProofs.FeedsExactly` | src/tbft_transport_espnow.c:250-305 | Whatever packet a slot is fed, it is refused, claims the slot without being taken, or is taken, and completes the message if and only if it is the last part missing. |
| `FragmentProofs.FindsExactly` | src/tbft_transport_espnow.c:198-248 | A packet gets the slot of its message, else the first that is free or was last fed more than 5000 ms ago, else one of the oldest; one taken over is cleared, all others stay. |
| `FragmentRuns.HandedOnWithTheLast` | src/tbft_transport_espnow.c:349-421 | Among whatever other traffic, a message is handed on exactly with its last missing fragment, with its original bytes and not before, and its slot is given up for the next round, as long as each packet of another message finds a slot of its own message, or finds this one's neither timed out nor the oldest with all in use. |
| `FragmentProofs.MessagesNeverMix` | src/tbft_transport_espnow.c:349-421 | Whatever else arrives, is evicted or times out, a message handed on is the one its sender split under its id. |
| `FragmentProofs.OthersLeaveASlotAlone` | src/tbft_transport_espnow.c:198-248 | A packet of another message changes a slot in use only by evicting it: because it timed out, or because all are in use and it is the oldest. |
| `Reassembly.ReassemblySlot.Feed` | src/tbft_transport_espnow.c:250-305 | Mask, count, buffer and length change as specified; the buffer always is the received payloads at their places and zero elsewhere. |
| `Reassembly.ReassemblySlot.BufferIsMessage` | src/tbft_transport_espnow.c:300-303 | The buffer of a complete slot up to its length is the message. |
| `Reassembly.Reassembler.ClearStale` | src/tbft_transport_espnow.c:181-196 | Clears exactly the stale slots. |
| `Reassembly.Reassembler.FindOrAlloc` | src/tbft_transport_espnow.c:198-248 | The slot of the message, else the first free or timed out one, else the oldest, cleared. |
| `Reassembly.Reassembler.Receive` | src/tbft_transport_espnow.c:349-421 | The receive callback does what the specification says with the slots and hands on its message. |
| `ReplyVoting.Client.RecvReply` | src/tbft_libbyz.c:625-763 | Returns at the first message after which any payload has f+1 distinct backers for the current request, with such a payload; otherwise uses up the messages and forgets all. |
| `ReplyVoting.VoicesAreBackers` | src/tbft_libbyz.c:669-694 | Starting with no reply to this request, the stored replies that back a payload are those of the replicas whose first reply among the messages received has it. |
| `ReplyVoting.AnswerIs` | src/tbft_libbyz.c:625-763 | On the messages themselves: nothing is returned before f+1 first replies of distinct replicas agree, then such a payload is, and otherwise none ever agreed. |
| `ReplyVoting.VoicesAreHeard` | src/tbft_libbyz.c:625-763 | Any f+1 agreeing first replies anywhere among the messages lead to a result, at the latest with the message that completes them. |
| `ReplyVoting.Client.Handle` | src/tbft_libbyz.c:669-757 | One reply: a result if and only if it completes f+1 matching ones, and then its own payload. |
| `ReplyVoting.Client.Tally` | src/tbft_libbyz.c:698-739 | The nested loops find the best support among payloads of the newest reply's size. |
| `ReplyVoting.OnlyNewestDecides` | src/tbft_libbyz.c:704-707 | Comparing only replies of the newest one's size is enough: no other payload's support can have changed. |
| `ReplyVoting.BackedByCorrect` | src/tbft_libbyz.c:629-630 | Of f+1 distinct backers one is correct. |

## Left out

- Network plumbing, tasks, queues, semaphores, timers, UDP, storage and configuration parsing: input and output only.
- Message authentication, signatures and key exchange: replaced by the assumptions above, including the suppression of view changes after authentication failures.
- Wire layout, alignment and length checks, except in the fragmentation part: messages are datatypes, and a request set is empty, garbled or a request.
- Timers, backoff, throttles and the fresh-boot and dead-primary heuristics: an event that they would trigger can happen at any step, and `Env` answers the throttles. No liveness of the protocol is claimed.
- The request queues and their deduplication, the reply cache and at-most-once execution per request id: the code does not give the latter.
- Agreement on the non-deterministic choices of the primary: the digest covers the request only.
- A view number that never decreases: a New_view installs the target view whatever the current one is.
- Fill requests and answers to Status and Fetch messages of lagging peers: each message that they re-send is a step of its own (a repeated Commit or Checkpoint), so the batch that one handler sends is not modelled as one step.
- Fetching under loss or reordering: replies for internal nodes are not counted, so completion is exact only in order. Failing hash operations of the crypto library are not modelled.
- The replica object takes the root digest of its state from `Env`: its link to the tree of a `StateStore` is not modelled.
- Version numbers of tree nodes, digest sums, the old contents of snapshotted blocks and rollback (which has no caller): nothing modelled reads them. How many old blocks a record holds is modelled, since it decides whether a written block is marked.
- Checkpoints above the window, View_change acknowledgements, stability queries and tentative execution: the replica does not use them.
- Replicas.Replica.HandlePrePrepare: requires that the direct assignment to the head does not move it back, because the stores otherwise lose their keys; `Limits` proves that exactly. The same holds for the handlers of View_change, New_view and Status.
- Reassembly.Reassembler.Receive: requires a payload within the radio's packet size, which the driver guarantees. Ticks do not wrap.
- Reassembly.ReassemblySlot.Feed: requires a slot that is not stale, since the receive callback clears stale slots before it chooses one.
- ReplyVoting.Client.RecvReply: the deadline is the end of the messages received in time.
