# What the clients and validators promise

This project models seven parts of the workforce kernel and its desktop client whose correctness is
not local to one function, and proves what they keep through every run: the roster editor, the two
outboxes (Home page and channel composer), the review of an action, the evidence validators, the
interpolation scanner, the merging of channel lists and read cursors, and the selection of
approvals, participants and questions.

Code that computes is modelled by functions; code that changes variables, fields, storage or loop
state is modelled by classes and methods whose contracts tie the new state to a transition function
on the old one. A component with asynchronous parts is cut at each `await`: `BeginX` is what runs
before it and captures what the closure captures, `EndX` is what runs after it with any response.
A module named `...Runs` puts those transitions together with a network that loses, delays and
repeats messages, storage that throws, crashes, other writers and a server, and proves invariants
of every run. `dafny verify dfyconfig.toml` checks everything.

What the short names in those results mean is proved as well, in terms that do not use them: of
entries, positions, characters and the words in the records. `Differ` says when rosters differ,
`SaveIsSentIff` when a save goes out, `SameRequestIff` when two drafts ask for the same, `IsOpen`
when a question can be asked; the modules named `...Saves`, `...Requests` and `...Rules` and the
lemmas ending in `Iff` hold these.

## Files

| file | what it is about |
|---|---|
| Options, Text | optional values; white space and the byte order of strings |
| Rosters, RosterLaws, RosterOrder | the three-way merge, by ids and by entries; its algebra; the order of its results |
| RosterEditor, RosterRuns | the editor and its class; one editor, other writers and the server's history |
| RosterSaves, RosterTopics | when a save is sent, and what answers do; what happens to what is saved but not compared |
| HomeOutbox, HomeRequests, HomeRuns | the Home page's durable submission; what it asks for and when; many windows over one device |
| Composer, ComposerRuns, SharedSlotRuns | the channel composer's slot and attempts; runs of one composer; of several on one slot |
| ActionReview, ReviewRuns | loading, consent and decision; every interleaving of them |
| Evidence, EvidenceRules, EvidencePages | the grounding validators; their rules position by position; pages, lines and the newest lineage |
| Interpolation | the scanner, its printer, and what it reports on any string |
| Channels, ReadCursor | channel list merges; the read cursor and its runs |
| Approvals, ApprovalRuns, ApprovalRules | who is offered what, and when the desktop may install; runs of a change set; its rules one by one |
| Participants, ParticipantRules | who speaks in a team's channel; the rules for each assignment |
| Questions, QuestionRuns | the order of questions; answering them over a network |

## Assumptions

- JSON text determines the value it was made from, so comparing texts is comparing values; a digest
  compared inside the change-set service stands for what it digests. The digest of evidence claims
  is an unknown function.
- Generated keys, evaluation ids and assignment ids are new and well formed. A server that has
  answered a key answers it the same way again; a message key refused definitively is never
  committed later.
- A team is replaced only by a request that expects exactly its current revision, which becomes one
  higher (pkg/team/registry.go:161-208), and its roster has no repeated ids or agents
  (pkg/team/deployment.go:67-84).
- Rendering is atomic: event handlers see the state that is on the screen. A synchronous
  check-and-set on storage is atomic between windows.
- `shown`, `ticked`, `minted`, `made`, `log`, `commits`, `sent` and `posts` are not variables of the
  source; they record what happened so that it can be talked about.

## Where the code does less than one would think

Each of these is pinned down by a lemma that says exactly when it shows, most of them beside a run or
a case in which it does.

- The roster editor compares assignments without `owns` but saves them whole. In a run from the
  start another writer's topics are dropped from an id that was not reviewed
  (`RosterTopics.TopicsCanBeLostUnreviewed`); they stand exactly when the draft that is sent has the
  same topics there in its base and in its roster (`RosterTopics.UnreviewedTopicsStandIff`). A step
  makes these differ exactly where the draft's own version of an id is carried onto a newer roster with
  other topics, at a refresh without conflicts or at a use of choices (`RosterTopics.TopicsDivergeIff`);
  that is hidden from review at once exactly if someone else made the same edit
  (`RosterTopics.TopicsAreHiddenIff`), and a draft restored from the device can bring it along. At the
  level of one merge: `RosterLaws.OwnsSurviveIff`.
- Rebasing twice is rebasing once unless an edit contained in the first roster was undone in the
  second (`RosterLaws.TwoRebases`, `RosterLaws.TwoRebasesDifferIff`).
- Two Home windows can send one text twice (`HomeRuns.TwoWindowsSendTwice`). With any number of
  windows, after a confirmed finish a new request can go out without the user typing exactly when
  some open window shows text then (`HomeRuns.SentUnattendedIff`).
- Several composers on one storage slot can send what was composed once twice, since the slot is
  written without being looked at. If a composer sends only what the slot holds, and frees a refused
  text only in a slot that holds it, that cannot happen (`SharedSlotRuns.OneMessagePerComposing`); and
  no weaker rule about what a composer shows and what it finds in the slot would do: for everything
  else the slot can hold there is a run in which one step against the rule leads to it
  (`SharedSlotRuns.SendingNeedsTheRule`, `ResendingNeedsTheRule`, `FreeingNeedsTheRule`).
- The owner's repeat of a recorded approval, which is let through so that a lost response can be
  recovered, is turned away after the candidate changed (`ApprovalRuns.DesktopRepeatIsTurnedAway`);
  it is let through exactly while the candidate is the one decided on (`ApprovalRuns.DesktopRepeatIff`).
- A channel that leaves the page of the list is forgotten (`Channels.LeavingThePageForgets`): what is
  shown is the newest since it last came onto the page (`Channels.ShownIsTheNewestSince`), so it goes
  back exactly when nothing as new has been seen since then (`Channels.GoesBackIff`). Two read notices
  commute unless both are ahead of what is shown and of each other in different ways
  (`Channels.NoticesCommuteIff`).
- The key that joins policy and role with NUL can withhold a requirement (`Approvals.KeysCanCollide`);
  the offer is exact if and only if the keys tell the references apart (`Approvals.OfferIsExactIff`),
  which the rule evaluations are submitted under guarantees (`ApprovalRuns.OfferIsExact`).
- A checkpoint that is sound otherwise and has no findings is accepted exactly when it and its last
  review write "no findings" alike (`Evidence.EmptyFindingsAreAcceptedIff`).
- Pages conserve findings exactly when no claim id with a finding is repeated
  (`EvidencePages.PagesConserveFindingsIff`).
- Which error a broken roster gives is the same in every order exactly when all that is broken in it
  is broken alike and it does not have too many speakers besides (`Participants.OneErrorIff`).

## Model

| member | source | states |
|---|---|---|
| Rosters.Reconcile | desktop/src/TeamRoster.tsx:42-60 | the loop over a `Map` gives every id what the three-way rule says, repeats no id, and lists as conflicts exactly the ids both sides changed differently, with both versions |
| Rosters.MergeRule | desktop/src/TeamRoster.tsx:42-60 | the same of the function the runs use, for any three rosters, repeated ids included |
| Rosters.DifferencesExact | desktop/src/TeamRoster.tsx:232-240 | what is listed for review is exactly the ids on which the two rosters differ |
| Rosters.SameRosterMeansNoDifferences | desktop/src/TeamRoster.tsx:29-41 | equal length and one look-up per entry is enough: `sameRoster` holds if and only if the rosters agree on every id, if and only if there is nothing to review |
| Rosters.ListedForReviewIff | desktop/src/TeamRoster.tsx:29-33 | said of the entries: an id is listed for review if and only if one roster lacks it, or they give it another role, agent or name, where no name is the empty one |
| Rosters.MergeByEntries | desktop/src/TeamRoster.tsx:42-60 | an id ends with the entry the draft has, or without one like the draft, if the draft edited it and not all three differ; else as it is saved; every field included |
| Rosters.ConflictByEntries | desktop/src/TeamRoster.tsx:49-56 | the user is asked about an id if and only if all three rosters differ on it, and is shown both entries |
| RosterOrder.MergeKeepsOrder | desktop/src/TeamRoster.tsx:47-59 | the merged roster comes in the order of what is saved, then of the draft |
| RosterOrder.DifferencesInOrder | desktop/src/TeamRoster.tsx:232-240 | what is listed for review comes in the order of base and draft, nothing twice |
| RosterOrder.ConflictsInOrder | desktop/src/TeamRoster.tsx:48-56 | so do the conflicts |
| RosterLaws.UnchangedMineYieldsSaved | desktop/src/TeamRoster.tsx:42-60 | merging without an edit returns the saved roster itself, order and all, without conflicts |
| RosterLaws.UnchangedSavedYieldsMine | desktop/src/TeamRoster.tsx:42-60 | merging onto an unchanged saved roster returns the draft's roster without conflicts |
| RosterLaws.MergeIsSymmetric | desktop/src/TeamRoster.tsx:42-60 | swapping mine and saved keeps the conflicts, and the merged roster off the conflicts |
| RosterLaws.EditsSurvive | desktop/src/TeamRoster.tsx:42-60 | off the conflicts, an edit of either side survives the merge |
| RosterLaws.TwoRebases | desktop/src/TeamRoster.tsx:258-286 | merging onto s1 then s2 equals merging onto s2, except for edits s1 already contained, where s2 stands |
| RosterLaws.TwoRebasesDifferIff | desktop/src/TeamRoster.tsx:258-286 | they differ on an id exactly when s1 contained its edit and s2 differs from s1 there |
| RosterLaws.LostResponseLeavesUnsavedEdits | desktop/src/TeamRoster.tsx:349-360 | after a save of unknown outcome and a rebase, the differences left are exactly the edits the server does not have |
| RosterLaws.UseTheseChoices | desktop/src/TeamRoster.tsx:468-491 | the loop that applies the choices computes the resolved roster |
| RosterLaws.ResolutionGivesEachChoice | desktop/src/TeamRoster.tsx:468-491 | every conflicting id ends with the chosen version, every other with the merged one, no id twice |
| RosterLaws.OwnsSurviveIff | desktop/src/TeamRoster.tsx:29-60 | exactly when another writer's `owns` survives a merge |
| RosterEditor.RosterComponent.constructor | desktop/src/TeamRoster.tsx:70-98 | a usable saved draft is restored as it was, anything else starts from the team |
| RosterEditor.RosterComponent.TeamArrives | desktop/src/TeamBrowser.tsx:331-338 | a new team never goes back a revision and clears the review if the revision changed |
| RosterEditor.RosterComponent.OpenEditor | desktop/src/TeamRoster.tsx:374-380 | opening replaces an untouched draft by a fresh one and keeps any other |
| RosterEditor.RosterComponent.SetReason | desktop/src/TeamRoster.tsx:695-703 | a reason changes the draft, so it clears the review |
| RosterEditor.RosterComponent.Tick | desktop/src/TeamRoster.tsx:704-711 | the tick records what was on the screen |
| RosterEditor.RosterComponent.ChangeRoster | desktop/src/TeamRoster.tsx:539-632 | an edit changes the draft's roster only, and clears the review |
| RosterEditor.RosterComponent.BeginRefresh | desktop/src/TeamRoster.tsx:241-246 | nothing changes but the lock and what the closure holds |
| RosterEditor.RosterComponent.EndRefresh | desktop/src/TeamRoster.tsx:247-299 | done, conflicting or rebased, onto the latest team; an older or failed answer changes nothing |
| RosterEditor.RosterComponent.UseChoices | desktop/src/TeamRoster.tsx:468-491 | the resolved roster becomes the draft, based on the merge's team |
| RosterEditor.RosterComponent.BeginSave | desktop/src/TeamRoster.tsx:300-329 | what is sent, and that it is sent only for a reviewed, changed, current, certain, conflict-free draft |
| RosterEditor.RosterComponent.EndSave | desktop/src/TeamRoster.tsx:330-365 | confirmed only by a newer revision with the same roster; a definitive refusal is certain, all else is not |
| RosterRuns.NoLostUpdate | desktop/src/TeamRoster.tsx:241-365 | in every run with other writers, a committed save differs from the roster it replaces, in role, agent or name, exactly on the reviewed ids |
| RosterTopics.UnreviewedTopicsStandIff | desktop/src/TeamRoster.tsx:300-329 | off the reviewed ids the saved topics stand exactly when the draft sent has the same in base and roster |
| RosterTopics.UnreviewedTopicsChangeIff | desktop/src/TeamRoster.tsx:300-329 | a committed save changes the topics of an id that was not reviewed exactly when the draft sent hides them |
| RosterTopics.TopicsDivergeIff | desktop/src/TeamRoster.tsx:241-299 | in every run a step gives the draft topics its base does not have only at a refresh without conflicts or a use of choices, and there exactly where its own version goes along and differs in them |
| RosterTopics.TopicsAreHiddenIff | desktop/src/TeamRoster.tsx:468-491 | such a step hides the topics of an id exactly when the draft had edited it and the newer roster has the same edit with other topics |
| RosterTopics.TopicsCanBeLostUnreviewed | pkg/team/deployment.go:22-29 | a run from the start whose save drops the topics of an id that was not reviewed |
| RosterRuns.BaseIsTheServersRoster | desktop/src/TeamRoster.tsx:61-98 | a draft's base is always the server's roster at the draft's revision, on the screen and on the device |
| RosterRuns.CommitsOnce | pkg/team/registry.go:161-208 | no two commits replace one revision, and history is only added to |
| RosterSaves.SaveIsSentIff | desktop/src/TeamRoster.tsx:300-329 | in every run a step sends a save if and only if every condition of the form holds, each written out, and it is the reviewed draft that is sent |
| RosterSaves.ReviewCoversWhatIsSent | desktop/src/TeamRoster.tsx:138-150 | behind every save there is a tick since which neither the draft nor the team's revision nor anyone's eligibility changed |
| RosterSaves.SaveAnswered | desktop/src/TeamRoster.tsx:330-365 | only a later revision with the draft's roster ends the draft; a refusal other than for a conflict leaves nothing in doubt, and everything else does |
| RosterSaves.NoSaveBeforeTheTeamIsKnown | desktop/src/TeamRoster.tsx:300-311 | after a save in doubt, whatever the user does, none is sent before a refresh has brought the team |
| RosterSaves.SentAgainAtOnceIff | desktop/src/TeamRoster.tsx:349-360 | ticking and saving again at once sends the draft again if and only if it was refused for certain and the team is still the same |
| RosterSaves.RefreshAnswered | desktop/src/TeamRoster.tsx:247-286 | a refresh that brings the team ends all doubt and the review, and leaves the draft done, to be settled, or going on from what is saved |
| RosterSaves.FailedRefresh | desktop/src/TeamRoster.tsx:287-299 | any other end of a refresh changes nothing else |
| RosterSaves.ChoicesAreUsedIff | desktop/src/TeamRoster.tsx:461-487 | the choices are used if and only if there is one for each contested id and the team is the one they were made about |
| RosterSaves.OpeningKeepsWork | desktop/src/TeamRoster.tsx:374-380 | opening replaces a draft if and only if it says what it began with and gives no reason |
| RosterSaves.DraftComesBack | desktop/src/TeamRoster.tsx:70-98 | a later visit finds the draft again if and only if it says anything and is not too long |
| RosterSaves.EditByEntries | desktop/src/TeamRoster.tsx:539-632 | what the four edits make of every entry, in place |
| RosterSaves.FormDoes | desktop/src/TeamRoster.tsx:151-155 | the form follows the user only while it can be used, and every change of the draft undoes the review |
| RosterSaves.NewerTeamIsTaken | desktop/src/TeamBrowser.tsx:331-338 | a team from outside is taken, and undoes the review, if and only if it is newer |
| RosterSaves.FrameDoes | desktop/src/TeamRoster.tsx:138-150 | a change of eligibility undoes the review; closing and refreshing wait for what is under way |
| HomeOutbox.LocalStorage.Persist | desktop/src/homeSubmission.ts:84-91 | the slot is taken only if it is empty or holds the same submission; a failed write changes nothing |
| HomeOutbox.LocalStorage.Finish | desktop/src/homeSubmission.ts:92-109 | the four writes in order, stopping after any number of them |
| HomeOutbox.HomeWindow.constructor | desktop/src/App.tsx:249-270 | a window shows the pending request's draft, else the saved draft or, without a readable one, the saved prompt, and is blocked by a request it cannot read |
| HomeOutbox.HomeWindow.SetPrompt | desktop/src/App.tsx:271-279 | the text of a pending request cannot be edited |
| HomeOutbox.HomeWindow.Submit | desktop/src/App.tsx:581-676 | stored before it is sent; a pending request is sent again unchanged |
| HomeOutbox.HomeWindow.Answer | desktop/src/App.tsx:581-676 | a record that does not match leaves all as it was; a matching one finishes |
| HomeOutbox.HomeWindow.ForgetSavedRequest | desktop/src/App.tsx:544-568 | only what this window holds is forgotten |
| HomeOutbox.HomeWindow.RetryRecovery | desktop/src/App.tsx:569-580 | a blocked window reads the slot again |
| HomeOutbox.SentIsReadBack | desktop/src/homeSubmission.ts:47-91 | a request that went out is read back unchanged |
| HomeOutbox.ReadingIsDetermined | desktop/src/homeSubmission.ts:16-83 | what is read has the path and body its draft stands for |
| HomeOutbox.FinishIsCrashSafe | desktop/src/homeSubmission.ts:92-109 | reopening after any number of the writes finds the same pending request with its text, or nothing pending, no text, and the proposal's id |
| HomeRequests.SameRequestIff | desktop/src/homeSubmission.ts:17-43 | exactly when two drafts ask for the same: one kind and one text, and for work one agent; or an agent's draft has the words a team's adds in front of the team's text |
| HomeRequests.RequestSaysTheText | desktop/src/homeSubmission.ts:17-43 | work and only work goes to the runs, with its agent; the text stands in every request, with the prefix in front for a team only |
| HomeRequests.UuidShapedIff | desktop/src/homeSubmission.ts:55-59 | a key is well formed if and only if it is five groups of hexadecimal digits, of 8, 4, 4, 4 and 12, joined by hyphens |
| HomeRequests.TakenUpIff | desktop/src/homeSubmission.ts:47-83 | a saved request is taken up if and only if it is what some draft the form lets through makes, under a well-formed key; anything else that is there blocks |
| HomeRequests.WindowSendsIff | desktop/src/App.tsx:581-605 | exactly when a window sends, what, and that the device holds it then |
| HomeRequests.OpenedShows | desktop/src/App.tsx:120-141 | where the text of an opened window comes from |
| HomeRequests.AnswerFinishesIff | desktop/src/App.tsx:606-640 | a request is let go if and only if its own record came, the device still holds it and all four writes are done; what they leave |
| HomeRequests.ForgottenIff | desktop/src/App.tsx:544-568 | exactly when a saved request is forgotten; the text stays |
| HomeRequests.RecoveredIsOpened | desktop/src/App.tsx:569-580 | reading the slot again is like opening anew, except for text on the screen when nothing is pending |
| HomeRuns.OneSubmissionAtATime | desktop/src/App.tsx:544-676 | over any windows, crashes and retries, two requests with different keys are separated by a confirmed finish or a forgetting of the earlier one |
| HomeRuns.SameRequestOnEveryRetry | desktop/src/homeSubmission.ts:16-91 | all requests ever sent under one key are the same, and each was on the device when it was sent |
| HomeRuns.AnswersAlwaysMatch | internal/server/authoring.go:200-214 | the record a key is answered with always matches the request sent |
| HomeRuns.NoRequestWithoutTheUser | desktop/src/homeSubmission.ts:92-109 | with one window, a new key is only made after the user typed or forgot something since the last confirmed request |
| HomeRuns.UserActsBetweenKeys | desktop/src/App.tsx:581-676 | between any two new keys of a run, with one window or with every window cleared on confirmation, the user typed or forgot something |
| HomeRuns.NoRequestWithoutTheUserInAnyWindow | desktop/src/App.tsx:581-676 | the same with any number of windows, as long as no window shows text when a request is confirmed |
| HomeRuns.SentUnattendedIff | desktop/src/App.tsx:452-458 | right after a confirmed finish in any run, some continuation makes a new key without typing or forgetting exactly when some open window shows text |
| HomeRuns.TwoWindowsSendTwice | desktop/src/App.tsx:581-676 | a run from the start in which two windows send one text, never typed again, as two records |
| Composer.Slot.Save | desktop/src/ChannelComposer.tsx:68-79 | an empty draft clears the slot; a failed write changes nothing |
| Composer.ChannelComposer.constructor | desktop/src/ChannelComposer.tsx:6-23 | the slot's draft is restored with its attempt |
| Composer.ChannelComposer.Edit | desktop/src/ChannelComposer.tsx:80-85 | only a draft without an attempt can be edited |
| Composer.ChannelComposer.Submit | desktop/src/ChannelComposer.tsx:86-109 | the attempt is stored before it is sent, and sent again unchanged |
| Composer.ChannelComposer.Receive | desktop/src/ChannelComposer.tsx:110-145 | success clears, a definitive answer frees the text, anything else keeps the attempt |
| ComposerRuns.AtMostOneMessagePerDraft | desktop/src/ChannelComposer.tsx:68-145 | two committed messages never belong to one composed draft |
| ComposerRuns.AttemptsNeverChange | desktop/src/ChannelComposer.tsx:86-145 | wherever an attempt is found, its text and body are those its key was made for |
| ComposerRuns.MadeNeverChanges | desktop/src/ChannelComposer.tsx:86-145 | and what a key was made for stays |
| ComposerRuns.MessageIsSentIff | desktop/src/ChannelComposer.tsx:86-109 | exactly when a message is sent, what, and that the device holds it then |
| ComposerRuns.TypingCountsIff | desktop/src/ChannelComposer.tsx:80-85 | typing changes the text if and only if there is no attempt to repeat |
| ComposerRuns.AnswerDoes | desktop/src/ChannelComposer.tsx:110-145 | in every run, a confirmation that the device takes clears the text, a refusal for good frees it, anything else keeps the attempt |
| ComposerRuns.SurvivesACrash | desktop/src/ChannelComposer.tsx:6-23 | what is on the device comes back after a crash, an attempt always |
| SharedSlotRuns.OneMessagePerComposing | desktop/src/ChannelComposer.tsx:68-145 | any number of composers on one slot that send only what it holds commit what was composed once at most once |
| SharedSlotRuns.SendingNeedsTheRule | desktop/src/ChannelComposer.tsx:86-109 | for whatever else the slot holds, a run in which only this sending of an unsent text breaks the rule commits it twice |
| SharedSlotRuns.ResendingNeedsTheRule | desktop/src/ChannelComposer.tsx:86-109 | the same of sending an attempt again that the slot no longer holds |
| SharedSlotRuns.FreeingNeedsTheRule | desktop/src/ChannelComposer.tsx:119-131 | the same of freeing the text of a refused attempt over something else |
| ActionReview.RunApproval.BeginLoad | desktop/src/RunApproval.tsx:92-96 | a load takes a new epoch and is not begun during a decision |
| ActionReview.RunApproval.EndLoad | desktop/src/RunApproval.tsx:97-134 | an outdated response changes nothing; another content clears choice, consent and key |
| ActionReview.RunApproval.Decide | desktop/src/RunApproval.tsx:160-203 | what is sent, under which key, and that loads under way are abandoned |
| ActionReview.RunApproval.EndDecide | desktop/src/RunApproval.tsx:204-239 | a confirmed decision clears everything, any other end keeps the key |
| ReviewRuns.ConsentBindsContent | desktop/src/RunApproval.tsx:160-260 | in every interleaving a decision carries the id and revision of exactly the content shown when the user ticked, which is still the one shown |
| ReviewRuns.OneKeyOneBody | desktop/src/RunApproval.tsx:173-203 | one key never carries two requests |
| ReviewRuns.UnchangedRetryReusesTheKey | desktop/src/RunApproval.tsx:173-203 | an unchanged retry goes out under the same key |
| ReviewRuns.StaleResponsesChangeNothing | desktop/src/RunApproval.tsx:92-147 | a response changes the view only if it is the newest load's, for the id shown, with no decision under way |
| ReviewRuns.EveryDecisionIsOpen | desktop/src/RunApproval.tsx:160-171 | behind every decision sent in any run: each condition on approval, call, run, deadline, permission, approver and form |
| ReviewRuns.OpenDecisionGoesOut | desktop/src/RunApproval.tsx:240-262 | and whenever all of them hold it goes out, with what is shown, under the key kept for exactly that decision or a new one |
| ReviewRuns.ReviewedSince | desktop/src/RunApproval.tsx:110-140 | what is reviewed was ticked, and has been shown unchanged and without a failing load ever since |
| ReviewRuns.OutdatedIff | desktop/src/RunApproval.tsx:92-95 | a load is outdated by another load, a decision sent or another id, and by nothing else |
| ReviewRuns.LoadAnswerDoes | desktop/src/RunApproval.tsx:103-145 | what an answer that counts does; choice, review and key stay if and only if it is what was shown |
| ReviewRuns.DecisionAnswerDoes | desktop/src/RunApproval.tsx:207-238 | only the answer about this approval and task ends a decision; otherwise form and key stay |
| ReviewRuns.FormDoes | desktop/src/RunApproval.tsx:342-400 | when the box, the choice and the words follow the user |
| Evidence.ValidateEvidenceClaims | internal/tui/evidence.go:336-373 | accepts if and only if every claim is complete, refers to observed evidence without repeats, ids are unique and the digest is the expected one |
| Evidence.ValidateEvidenceGroundingProjection | internal/tui/evidence.go:375-420 | accepts if and only if the envelope, the findings and the claimed outcome are what the quantified specification says |
| Evidence.ValidatePendingGroundingFindings | internal/tui/evidence.go:422-448 | accepts if and only if every finding is of a claim, complete and within the claim's evidence |
| Evidence.DecodeEvidenceGrounding | internal/tui/evidence.go:248-318 | when a run is nothing, an error, an accepted grounding or an open one, and what is taken from it |
| Evidence.CountingIsCovering | internal/tui/evidence.go:388-420 | counting distinct reviewed ids decides whether every claim is reviewed |
| Evidence.AcceptedIsFullySupported | internal/tui/evidence.go:248-318 | an accepted grounding gives every claim exactly one finding, supported, within the claim's evidence, within the observations |
| Evidence.OneVerdictIsValid | internal/tui/evidence.go:375-420 | over the same findings a review is valid with one verdict only, and with acceptance exactly when all is covered, reviewed and supported |
| Evidence.RejectedLeavesSomethingOpen | internal/tui/evidence.go:375-420 | a valid review is rejected if and only if coverage is incomplete, a claim unreviewed or a finding not supported |
| Evidence.EmptyFindingsAreAcceptedIff | internal/tui/evidence.go:450-454 | with no findings, an otherwise sound checkpoint is accepted exactly when both sides write that alike |
| EvidenceRules.ClaimsAreValidIff | internal/tui/evidence.go:336-373 | the rules for claims, position by position |
| EvidenceRules.ReviewIsValidIff | internal/tui/evidence.go:375-420 | a review is valid if and only if its envelope is, each finding is about one claim and cites what that cites, no two are about one, and it accepts precisely what it covers and supports |
| EvidenceRules.EnvelopeIsValidIff | internal/tui/evidence.go:379-383 | what stands at the head of a review, in the words of the record |
| EvidenceRules.AcceptedRunIff | internal/tui/evidence.go:248-281 | exactly when a run is shown as accepted; completeness and the digest follow |
| EvidenceRules.OpenRunIff | internal/tui/evidence.go:283-318 | exactly when a run is shown as in progress, by its two statuses |
| EvidencePages.GroundingPages | internal/tui/evidence.go:456-479 | the loops with the used flags compute the pages of the specification |
| EvidencePages.FindingIsShown | internal/tui/evidence.go:456-479 | how often each finding is shown, whatever the claims are |
| EvidencePages.PagesConserveFindingsIff | internal/tui/evidence.go:456-479 | every finding is shown once if and only if no claim id that has a finding is repeated |
| EvidencePages.ValidPagesConserve | internal/tui/evidence.go:456-479 | with unique claims pages number claims plus unmatched findings, claims in order first |
| EvidencePages.AcceptedPages | internal/tui/evidence.go:456-479 | an accepted review gives one page per claim with its one supporting finding |
| EvidencePages.RuneChunks | internal/tui/evidence.go:571-586 | the lines lose nothing, fit their widths, and only the last may be shorter |
| EvidencePages.LatestEvidenceLineage | internal/tui/evidence.go:120-133 | none if and only if nothing matches, else one that no other match is newer than |
| EvidencePages.NewestIsUnique | internal/tui/evidence.go:120-133 | the choice does not depend on the order of the runs |
| Interpolation.ContainsInterpolation | internal/workflow/parser.go:297-304 | yes if and only if there is an opening with something behind it |
| Interpolation.InterpolationVars | internal/workflow/parser.go:307-334 | the index loop, restarts included, ends and computes the scan |
| Interpolation.ScanFindsTheClose | internal/workflow/parser.go:312-322 | the depth count stops exactly where the braces balance for the first time |
| Interpolation.ScannerInvertsPrinter | internal/workflow/parser.go:307-334 | printing literals without openings and balanced bodies and scanning gives the bodies back in order |
| Interpolation.ScannerLosesNothing | internal/workflow/parser.go:307-334 | on any string the reported bodies, balanced, with literals between them make up the string |
| Interpolation.SplitIsReported | internal/workflow/parser.go:307-334 | those bodies are what the scanner reports, in order |
| Interpolation.SplitHoldsNone | internal/workflow/parser.go:307-334 | no position of the literals between them begins a variable |
| Interpolation.SplitIsTheOnlyOne | internal/workflow/parser.go:307-334 | there is no other way to read a string as balanced bodies and literals in which no variable begins |
| Interpolation.ReportsTheOnlyReading | internal/workflow/parser.go:307-334 | so what is reported of any string are the bodies of the only reading it has |
| Interpolation.ReportsIffTerminated | internal/workflow/parser.go:307-334 | something is reported if and only if some opening is closed |
| Interpolation.ReportedMeansContained | internal/workflow/parser.go:297-334 | then `ContainsInterpolation` says yes |
| Channels.ChannelStep | desktop/src/TeamChannels.tsx:127-142 | what the list shows of a channel after a poll, a notice or an update depends only on what it showed of it |
| Channels.DisplayNeverGoesBack | desktop/src/TeamChannels.tsx:355-386 | while a channel stays on the page, its revision, read revision and read sequence never decrease, whatever arrives |
| Channels.ShownIsTheNewest | desktop/src/TeamChannels.tsx:127-142 | what is shown in the end is the newest version and the furthest position there was |
| Channels.OrderDoesNotMatter | desktop/src/TeamChannels.tsx:127-142 | events of one server in any order, any number of times, end in the same view of a channel |
| Channels.LeavingThePageForgets | desktop/src/TeamChannels.tsx:127-142 | a channel that left the page can come back older |
| Channels.ShownIffListed | desktop/src/TeamChannels.tsx:127-142 | a channel is on the page exactly when the last poll has it |
| Channels.WhenItCame | desktop/src/TeamChannels.tsx:127-142 | a channel on the page has been there from the start, or came with one poll, as that poll had it, and stayed |
| Channels.ShownIsTheNewestSince | desktop/src/TeamChannels.tsx:127-142 | for any events, what is shown of a channel is the newest since it last came onto the page |
| Channels.GoesBackIff | desktop/src/TeamChannels.tsx:127-142 | it is shown older than before if and only if nothing as new has been seen since then |
| Channels.SamePage | desktop/src/TeamChannels.tsx:127-142 | two orders of the same events that end in the same poll give the same page, item for item, if its channels stayed |
| Channels.PageIsLastPoll | desktop/src/TeamChannels.tsx:127-142 | in every run the page has the channels of the last poll in its order, all of them up to twenty |
| Channels.NoticesCommuteIff | desktop/src/TeamChannels.tsx:355-376 | two notices commute unless both are ahead of what is shown and neither is ahead of the other in both numbers |
| Channels.ConversationNeverGoesBack | desktop/src/TeamChannels.tsx:468-470 | the open conversation is as new as everything loaded |
| ReadCursor.ReadState.constructor | desktop/src/ChannelReadState.tsx:28-36 | nothing is known at first |
| ReadCursor.ReadState.Validate | desktop/src/ChannelReadState.tsx:42-70 | a cursor passes if and only if it is consistent and behind the known one in nothing |
| ReadCursor.ReadState.Accept | desktop/src/ChannelReadState.tsx:71-76 | what is known, shown and told to the list |
| ReadCursor.ReadState.BeginLoad | desktop/src/ChannelReadState.tsx:77-80 | a load only takes the lock |
| ReadCursor.ReadState.EndLoad | desktop/src/ChannelReadState.tsx:81-111 | accepted, "none yet" only while nothing is known, or an error; only a manual load clears the doubt |
| ReadCursor.ReadState.BeginMark | desktop/src/ChannelReadState.tsx:127-152 | when a mark is sent and what it asks for |
| ReadCursor.ReadState.EndMark | desktop/src/ChannelReadState.tsx:153-175 | only the position asked for confirms a mark; anything else leaves a doubt |
| ReadCursor.CursorNeverGoesBack | desktop/src/ChannelReadState.tsx:42-76 | in every run no accepted cursor is behind an earlier one, and none reads more than was delivered |
| ReadCursor.NoticesAreComparable | desktop/src/ChannelReadState.tsx:71-76 | the notices of a reader meet the condition under which the list converges |
| ReadCursor.MarksOnlyMoveForward | desktop/src/ChannelReadState.tsx:127-152 | every mark reads further than all cursors before it, delivers no less, and keeps delivered at or past read |
| ReadCursor.NoMarkWhileUncertain | desktop/src/ChannelReadState.tsx:127-175 | after a mark of unknown effect none is sent until the reader has checked |
| ReadCursor.MarkIsSentIff | desktop/src/ChannelReadState.tsx:127-152 | said of what happened before: exactly when messages are marked as read, and exactly what is asked for |
| ReadCursor.LoadBeginsIff | desktop/src/ChannelReadState.tsx:77-80 | exactly when the position is loaded |
| ReadCursor.LoadIsAcceptedIff | desktop/src/ChannelReadState.tsx:42-111 | exactly which answers to a load are accepted; a check is noted for a manual one |
| ReadCursor.MarkIsConfirmedIff | desktop/src/ChannelReadState.tsx:153-175 | exactly which answers confirm a mark |
| ReadCursor.ClosedIsSilent | desktop/src/ChannelReadState.tsx:112-118 | once the component is gone nothing more is sent, shown or told |
| Approvals.ActiveRequirements | internal/server/authoring.go:481-522 | the nested loops compute the offer: the open authorised references of the newest allowed evaluation with requirements, first of each key |
| Approvals.OfferIsExactIff | internal/server/authoring.go:481-522 | the offer is exactly the authorised, required, undecided references, each once, if and only if their joined keys tell them apart |
| Approvals.OfferIsInOrder | internal/server/authoring.go:481-522 | the offer keeps the authorised order |
| Approvals.KeysCanCollide | internal/server/authoring.go:513-517 | an offer that withholds a required, authorised and undecided reference, on requirements the submission rule excludes |
| Approvals.UniqueRequirementsTellApart | pkg/authoring/changeset.go:2968-2981 | the rule evaluations are submitted under makes the keys tell references apart |
| Approvals.CheckEligible | internal/server/authoring.go:389-411 | a request is let through if and only if it is offered, or authorised and a repeat of this actor's recorded decision |
| Approvals.DesktopOwnerReviewed | internal/server/desktop_authority.go:169-192 | yes if and only if the newest evaluation is the local policy's allowed one of this candidate with the owner requirement, and the owner approved it |
| Approvals.AuthorizeLifecycle | internal/server/desktop_authority.go:41-74 | which operations the desktop authorises, as whom, with what; Apply exactly when the owner reviewed |
| Approvals.EligibleRequirements | internal/server/desktop_authority.go:58-70 | the nested loops list exactly the owner requirements of the local policy's allowed evaluations of this candidate, in order |
| ApprovalRuns.OneDecisionPerActor | pkg/authoring/changeset.go:3145-3150 | in every run an actor has at most one decision on each requirement of an evaluation, and no key two decisions |
| ApprovalRuns.RepeatIsReplayed | pkg/authoring/changeset.go:3104-3120 | once recorded, the same request is confirmed whatever happens next, records nothing, and is let through while its requirement is still authorised |
| ApprovalRuns.DesktopRepeatIff | internal/server/authoring.go:396-411 | with the desktop's own authorization, a repeat of the owner's recorded decision is let through at any later time exactly when the candidate is the one decided on |
| ApprovalRuns.DesktopRepeatIsTurnedAway | internal/server/authoring.go:396-411 | from the start: evaluated, approved, renamed, and the repeat is turned away |
| ApprovalRuns.OfferIsExact | internal/server/authoring.go:481-522 | in every run the offer is exactly what is authorised, required by the newest evaluation and undecided |
| ApprovalRuns.DesktopOffer | internal/server/desktop_authority.go:58-70 | in every run the owner is offered the owner requirement of the newest evaluation, if that is the local policy's of this candidate and undecided, and nothing else |
| ApprovalRuns.OfferIsAccepted | pkg/authoring/changeset.go:3121-3165 | a request for something offered is recorded, unless it would be a second approval in one separation group |
| ApprovalRuns.EvaluationRevokes | internal/server/desktop_authority.go:169-192 | a new evaluation takes the permission to install away |
| ApprovalRuns.DecisionGrantsIff | internal/server/desktop_authority.go:169-192 | the owner's decision gives it exactly when it approves |
| ApprovalRuns.AmendmentRevokesIff | internal/server/desktop_authority.go:169-192 | a change of candidate keeps it exactly when the digest stays |
| ApprovalRuns.RejectionIsFinal | internal/server/desktop_authority.go:169-192 | after the owner rejected, nothing but a new evaluation can bring it |
| ApprovalRuns.InstallsWhatTheOwnerApproved | internal/server/desktop_authority.go:35-74 | whenever installing is permitted, the owner approved at a time when evaluations and candidate were what they are now |
| ApprovalRules.SubmissionComesTo | pkg/authoring/changeset.go:2917-2985 | what a submitted evaluation comes to, condition by condition, and the change set it leaves |
| ApprovalRules.DecisionIsTurnedAway | pkg/authoring/changeset.go:3072-3131 | why a decision is not even looked at against the newest evaluation |
| ApprovalRules.DecisionComesTo | pkg/authoring/changeset.go:3132-3190 | what one that is in order comes to: not required, decided already, separated, or recorded, and where that takes the change set |
| ApprovalRules.CountedAreActors | pkg/authoring/changeset.go:3197-3211 | counting approvals counts different people |
| ApprovalRules.OwnerReviewedIff | internal/server/desktop_authority.go:169-192 | exactly when the desktop may install, in the words of the records |
| ApprovalRules.OwnerCanInstall | internal/server/desktop_authority.go:51-58 | from the start: the desktop evaluates, the owner approves, and installing is permitted and waits for no one else |
| ApprovalRules.DesktopAuthorizesIff | internal/server/desktop_authority.go:59-70 | on what the desktop authorises the owner, in the words of the records |
| ApprovalRules.LetThroughIff | internal/server/authoring.go:389-411 | in every run, a decision is let through if and only if its actor is authorised on it and it was recorded before or is waited for |
| Participants.Resolve | internal/daemon/conversation_participants.go:61-136 | the loops with their early returns compute the outcome of the specification |
| Participants.ResolveConversationParticipants | internal/daemon/conversation_participants.go:42-52 | one binding per member, in their order |
| Participants.GatherIsAllOrNothing | internal/daemon/conversation_participants.go:89-130 | an error if and only if some assignment is broken or there are too many speakers, else all of them |
| Participants.OutcomeIsExact | internal/daemon/conversation_participants.go:61-136 | a list is strictly sorted, of size 1 to the maximum, and holds exactly the active members in speaking roles, each fit for its role |
| Participants.OrderDoesNotMatter | internal/daemon/conversation_participants.go:61-136 | permuted rosters give the same list, nobody, or an error both times |
| Participants.OneErrorIff | internal/daemon/conversation_participants.go:89-130 | the error is the same in every order exactly when all broken assignments are broken alike and there are not too many speakers besides |
| ParticipantRules.RoleIsTheLastNamed | internal/daemon/conversation_participants.go:84-91 | the role an assignment means is the last of its id, or an empty one |
| ParticipantRules.PassedOverIff | internal/daemon/conversation_participants.go:91-104 | exactly who is passed over |
| ParticipantRules.SpeaksIff | internal/daemon/conversation_participants.go:89-126 | exactly who speaks, and as what |
| ParticipantRules.AgentStopsIff | internal/daemon/conversation_participants.go:94-108 | exactly which agents stop a round, and how |
| ParticipantRules.DefinitionStopsIff | internal/daemon/conversation_participants.go:109-122 | exactly which definitions and unmet demands stop it |
| ParticipantRules.RoundIsRefusedFor | internal/daemon/conversation_participants.go:61-83 | what a round is refused for before its roster is looked at |
| Text.BeforeIff | internal/daemon/conversation_participants.go:134 | the order of the speakers: a prefix comes first, otherwise the smaller character at the first difference |
| Questions.NextIsFirstHighest | desktop/src/ProposalReview.tsx:25-47 | the next question is the first of highest priority among those nobody has answered and whose every dependency has, as its newest answer, one with all that is required; and there is one if there are such |
| Questions.AnswersRespectDependencies | desktop/src/ProposalReview.tsx:25-47 | in every run of answers each is to an unanswered question whose dependencies were met before |
| Questions.NoMoreAnswersThanQuestions | desktop/src/ProposalReview.tsx:25-47 | a run has no more answers than there are questions |
| Questions.RunEnds | desktop/src/ProposalReview.tsx:25-47 | it is over within that number, and over if and only if every unanswered question has an unmet dependency |
| QuestionRuns.ProposalReview.BeginAnswer | desktop/src/ProposalReview.tsx:261-282 | what is sent, and that an unchanged retry keeps its key |
| QuestionRuns.ProposalReview.BeginRetry | desktop/src/ProposalReview.tsx:261-287 | a retry takes a key of its own under the same rule, in place of the one kept for an answer |
| QuestionRuns.ProposalReview.EndAnswer | desktop/src/ProposalReview.tsx:283-311 | success shows the saved proposal and drops the key; a conflict shows the latest; all else changes nothing |
| QuestionRuns.AnswersAreInTurn | pkg/authoring/changeset.go:985-1023 | whatever others change, an answer is saved, confirmed, or refused as out of date, closed or malformed; never as out of turn or for its key; and it is saved only to the question that is next |
| QuestionRuns.AnsweredOnce | pkg/authoring/changeset.go:985-993 | once saved, every later arrival under its key, in any run, is confirmed and changes nothing |
| QuestionRuns.OneAnswerPerRevision | pkg/authoring/changeset.go:985-1023 | of two answers to one revision, under whatever keys, at most one is ever saved in any run |
| QuestionRuns.AnswerIsSentIff | desktop/src/ProposalReview.tsx:261-287 | in every run, exactly when an answer is sent, to which question, and under which key |
| QuestionRuns.AnswerComesTo | pkg/authoring/changeset.go:982-1023 | what the service makes of an answer, condition by condition, and what it saves |
| QuestionRuns.AnswerEnds | desktop/src/ProposalReview.tsx:288-315 | what is shown and what is kept when a request ends |
| QuestionRuns.RetryIsBegunIff | desktop/src/ProposalReview.tsx:261-287 | exactly when a retry goes out, under which key, in place of what was kept |

## Left out

- Routing, query parsing, status mapping and JSON writing in internal/server; rendering, focus and timers of the components: one-branch claims.
- TeamWork, WorkGuidance, ChannelSettings and InstallationReview: the same outbox, fingerprint and revision pattern again.
- HCL and cty evaluation in internal/workflow/parser.go: it rests on library types that are not in the repository.
- ContainsInterpolation and the scanner work on bytes; a character of the model is one byte, and only three of them matter.
- Storage that someone else wrote to, and drafts longer than 16,000 characters.
- RosterEditor.RosterComponent.ChangeRoster: the checks of roles and agents that limit what can be chosen are inputs (`allowed`, `problems`).
- RosterRuns: several editors of one person are other writers to each other; the saved draft of one slot is modelled for one editor at a time.
- ComposerRuns.AtMostOneMessagePerDraft: stated for one composer on a slot, failed writes included; for several see `SharedSlotRuns`.
- ReadCursor: the channel a reader looks at is fixed, since the component is keyed by it.
- Approvals.AuthorizeLifecycle: the schema-declared binding fields that go with a patch are not modelled.
- ApprovalRuns: the validation of stored change sets, the computation of readiness (an input) and the rewriting of digests when secrets are redacted from a stored candidate.
- Participants.GatherMembers: the sort of Go's library is modelled by an insertion sort on values instead of in place; since agents are distinct, every sort gives the same list.
- Participants.Resolve: the validation of teams, agents and definitions beyond ids, agents and roles is an input (`wellFormed`).
- Questions.RunEnds: the questions stay the same during a run; QuestionRuns lets others change them at any time.
- QuestionRuns: which statuses take answers (`open`) and which values fit a question (`fits`) are inputs; answers by the runtime and revised answers come from others.
