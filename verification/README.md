# Verification of the alarm backend

A Dafny model of the backend of an alarm system for unattended sites: alarms are escalated along a chain of users,
who are contacted by SMS and phone; gateways report dry contacts; a Patroni cluster of nodes replicates the database
and relays writes. The project models the parts where several functions must fit together over time, and proves what
they guarantee over every run.

- **Escalation** (`EscalationChain`, `ChainConfig`, `AlarmTables`, `AlarmSteps`, `EscalationLogic`, `AlarmBackend`,
  `EscalationRuns`, `ContactRuns`, `ContactDelivery`, `QueueRows`, `StepEffects`, `CreationEffects`, `AckRuns`). The
  tables are sequences of rows. `AlarmBackend.Backend` is the imperative code: the loop tick and the handlers, updating
  the tables in place. Each of its methods is proved equal to a function of `AlarmSteps`; what each step does to a row is
  then stated in words of its own (`StepEffects`, `CreationEffects`, `ContactDelivery`, `QueueRows`), and the theorems
  over runs follow. A run is any interleaving of ticks, admin escalations, call results, acknowledgements, resolutions,
  sent alarms, gateway reports and SMS outcomes.
- **Gateway reconciliation** (`SiteReconciliation`, `DissensusRuns`). A report recomputes whether its site must be in
  alarm, and keeps track of gateways that disagree.
- **Cluster monitors** (`ReplicaReinit`, `ReinitRuns`, `ReinitAlerts`, `QuorumDetection`, `QuorumMonitor`,
  `QuorumIncidents`, `ReminderOrder`, `IncidentEmails`, `LeaderLoss`). Step functions with memory, and what they do
  over whole terms and runs.
- **Kernels** (`Dtmf`, `Easter`, `Connectivity`, `Resilience`, `WriteRelay`).

An instant is a whole number of microseconds, the resolution of Python's `datetime`. Each handler and each tick is
one atomic step. A row's id is its index in its table. The clock, the users' online flags, the cluster as Patroni
describes it, the outcome of each HTTP exchange and the key found in a block of audio are inputs of the steps.

Where the code and the words around it differ, the model follows the code:

- `_find_next_user_id` is described as sending an outsider to the head of the chain; it does so exactly when the
  head's position is not negative, or every position is (`StrangerGoesToHead`, `StrangerCanMissTheHead`).
- A resolved alarm is not final: acknowledging it, or phone key "2", brings it back (`ResolvedAlarmComesBack`, and the
  exact condition in `ResolvedIsTerminalUnlessReopened`).
- One unresolved alarm per site holds for gateway reports, not for alarms sent by hand over an acknowledged one
  (`AcknowledgedSiteGetsASecondAlarm`, and the exact condition in `OneOpenPerSiteExactly`).
- "No duplicate call in the queue" holds exactly when no two users due in one tick share a number
  (`SharedNumberIsCalledTwice`, `EnqueueDoublesOnlyTwins`): the session does not flush by itself, so the guard does
  not see the rows of its own tick.
- The quorum monitor's docstring says that the stored start of an incident survives a restart; the first tick of any
  term clears it (`FirstTickForgetsTheIncident`).
- Reminders are tried from the longest window down, yet a shorter one can follow a longer one. The order holds over a
  run exactly when no tick that can write finds a window overtaken (`OrderHoldsExactly`); it always holds while the
  alert address is set (`SteadyRunKeepsOrder`), and `ShorterReminderCanFollowLonger` is a run in which the address is
  missing for three hours.
- The date since which a site's gateways disagree is kept on its alarm, and only reports that find the alarm live look at
  it. It is the start of the disagreement exactly when no report hidden by an acknowledgement began it earlier or ended
  it meanwhile (`RecordedStretchIsRealExactly`); `RecordedDateCanBeStale` is a run from empty tables in which the email
  goes out three seconds after the gateways began to disagree.
- The quorum evaluation takes a history in any order. The order does not matter for what the history determines
  (`EvaluationIsContinuousLoss`); it does when two snapshots of one instant disagree (`OrderMattersWhenTheyDisagree`).
- A call repeated through the write relay takes a lost reply and a second executing peer, and that is the exact condition
  (`RunsTwiceExactly`, `MovedLeaderRunsItAgain`).
- The offline total is the measure of the window exactly when no event stamped after now changes the status of now
  (`TotalIsMeasureExactly`, `LaterEventBreaksTheBounds`).
- The statistic of transitions is described as the number of `went_offline` rows; it is, exactly when none of them
  repeats the row before (`TransitionsAgainstRows`). A row is repeated when the watchdog and the "go offline" handler
  both read a user as online in their own sessions before either commits (`TwoEmittersWriteTwoRows`).

## Model

| member | source | states |
|---|---|---|
| EscalationChain.Successor | backend/app/logic/escalation.py:93-131 | In a chain with ordered positions and unique users, the successor of the member at place i is the one at place i + 1, and the head after the last. |
| EscalationChain.LoneMemberStays | backend/app/logic/escalation.py:93-131 | The only member of a one-entry chain has no successor. |
| EscalationChain.StrangerGoesToHead | backend/app/logic/escalation.py:93-131 | A user outside the chain goes to its head, exactly under the stated condition on positions. |
| EscalationChain.StrangerCanMissTheHead | backend/app/logic/escalation.py:93-131 | A concrete chain with a negative position sends an outsider past the head. |
| EscalationChain.NextIsAnotherMember | backend/app/logic/escalation.py:93-131 | Whatever the current user, a successor is a member of the chain and never the current user. |
| EscalationChain.WalkIsInjective | backend/app/logic/escalation.py:93-131 | Fewer than n applications of the successor from a member never meet the same user twice. |
| EscalationChain.SingleCycle | backend/app/logic/escalation.py:93-131 | From any member, n applications of the successor visit every member exactly once and come back: one n-cycle. |
| EscalationChain.FindNextUser | backend/app/escalation.py:563-583 | The scan over existing users returns the first other known entry of the chain rotated behind the current position. |
| EscalationChain.NextKnownIsFirstAfter | backend/app/escalation.py:563-583 | With deleted users in the chain, the one found from a member is the first after him, round the chain, who still exists; nobody iff no other member does. |
| EscalationChain.SuccessorsAgree | backend/app/escalation.py:563-583 | The two successor functions, written separately, choose the same user whenever every chain user exists. |
| ChainConfig.ReadChainIsChain | backend/app/escalation.py:315-319 | Rows with unique positions and users, read in position order, form a proper chain holding exactly those rows. |
| ChainConfig.SetSizeTest | backend/app/api/config.py:152-165 | Comparing a list's length with its set's size detects exactly the lists with a repeated user. |
| ChainConfig.ChainTable.AddEntry | backend/app/api/config.py:19-63 | Refuses a taken position first, then a taken user, else appends; positions and users stay unique. |
| ChainConfig.ChainTable.DeleteEntry | backend/app/api/config.py:66-77 | Removes exactly the row with the id, or reports that there is none; uniqueness is kept. |
| ChainConfig.ChainTable.ReplaceAll | backend/app/api/config.py:142-172 | Each refusal in the code's order leaves the table untouched; otherwise the table is the list, numbered from 1. |
| AlarmTables.AddNotifiedAdds | backend/app/escalation.py:56-67 | Notifying adds one user to an alarm's notified set, touches no other alarm, and keeps one row at most per alarm and user. |
| EscalationLogic.EvaluateEscalation | backend/app/logic/escalation.py:58-85 | The loop lists, alarm by alarm, exactly the decisions of the rule (delay, then at most three more minutes for the call) and wakes up exactly the offline users moved away from. |
| EscalationLogic.WakeUpsExactly | backend/app/logic/escalation.py:74-76 | Woken up are exactly the users known to be offline whom a decision moves away from. |
| EscalationLogic.DecisionsReachTargets | backend/app/escalation.py:338-396 | Deciding on snapshots and then applying the decisions one by one moves every alarm to its target, as if all moved at once. |
| EscalationLogic.EvaluateSmsCallTimers | backend/app/logic/sms_timer.py:46-75 | The two lists are, in order, the due notifications of live alarms whose SMS, respectively call, mark is off. |
| EscalationLogic.DueForIsExact | backend/app/logic/sms_timer.py:46-75 | A notification is listed if and only if it is due and unmarked, and the list is strictly increasing, so listed once. |
| EscalationLogic.FoldsAreNewRows | backend/app/escalation.py:403-457 | Queueing from the two lists, guards looking at the tables as before the section, adds exactly the rows of the contact section. |
| AlarmBackend.Backend.ExpireAcknowledgements | backend/app/escalation.py:275-299 | Every expired acknowledgement is reactivated and its notifications re-armed, nothing else changes. |
| AlarmBackend.Backend.CancelObsoleteContacts | backend/app/escalation.py:131-140 | Exactly the queued SMS and calls of alarms no longer live are closed. |
| AlarmBackend.Backend.AlarmsAwaitingCall | backend/app/escalation.py:80-105 | The set holds exactly the live alarms whose reachable assignee has not had this level's call, or has an SMS queued. |
| AlarmBackend.Backend.EscalateDueAlarms | backend/app/escalation.py:304-401 | The section's effect on the tables; every decision is a move the timer makes, every such move has its decision, and only one. |
| AlarmBackend.Backend.EnqueueSmsForUser | backend/app/escalation.py:177-208 | Adds one SMS unless the user has no number or the same text is already queued to it. |
| AlarmBackend.Backend.EnqueueCallForUser | backend/app/escalation.py:211-238 | Adds one call unless the user has no number or a call for the alarm is already queued to it. |
| AlarmBackend.Backend.QueueSms | backend/app/escalation.py:441-447 | The loop over the SMS list queues against the rows from before it and sets the marks. |
| AlarmBackend.Backend.QueueCalls | backend/app/escalation.py:449-455 | The same for calls. |
| AlarmBackend.Backend.EnqueueDueContacts | backend/app/escalation.py:403-457 | The whole contact section as one function of the tables. |
| AlarmBackend.Backend.LoopTick | backend/app/escalation.py:241-470 | One tick is expiry, cancellation, escalation and contacts in that order on the leader, and nothing elsewhere. |
| AlarmBackend.Backend.EscalateActiveAlarmsNow | backend/app/escalation.py:586-624 | Every live alarm with another known user in the chain moves to the next one; the count returned is the number of moves. |
| StepEffects.AdminEscalatesExactly | backend/app/escalation.py:586-624 | The button moves exactly the alarms that wait for an answer and have another existing user in the chain, each to the successor of its assignee. |
| AlarmBackend.Backend.GetPendingCalls | backend/app/api/calls.py:22-53 | The ids handed out are exactly those of pending calls of the sites (a row without a site counting for the default one) whose alarm is still to be answered, once each, in the order of creation. |
| AlarmBackend.Backend.PostResult | backend/app/api/calls.py:56-120 | The queue row, the acknowledgement or the escalation each result causes, and 404 for an unknown id. |
| StepEffects.KeyOneAcknowledges | backend/app/api/calls.py:76-90 | Answering "1", on the phone or by SMS, acknowledges the call's alarm for its user and exactly thirty minutes if it waits for an answer, with assignee, level and timer as they were; otherwise no alarm changes. |
| StepEffects.KeyTwoEscalates | backend/app/api/calls.py:92-112 | Answering "2" moves the call's alarm to the next existing user of the chain, whatever its status, and notifies him; nothing changes when there is none. |
| StepEffects.OtherResultsKeepAlarms | backend/app/api/calls.py:114-120 | No other result touches an alarm or a notification. |
| AlarmBackend.Backend.AcknowledgeByPhone | backend/app/api/calls.py:123-185 | Acknowledges the first notified unresolved alarm, the last SMS's site first; the alarm found is no longer live. |
| StepEffects.PhoneAcknowledges | backend/app/api/calls.py:123-185 | An SMS reply acknowledges, for the first user with the number, the first unresolved alarm he was notified of, those of the site of the last SMS sent to him first, if it waits for an answer; nothing else changes. |
| AlarmBackend.Backend.AcknowledgeBy | backend/app/api/alarms.py:278-315 | Only a notified user may acknowledge; the status is not looked at. |
| StepEffects.AppAcknowledges | backend/app/api/alarms.py:278-315 | From the app exactly the notified users acknowledge, whatever the status, for thirty minutes. |
| AlarmBackend.Backend.ResolveAlarm | backend/app/api/alarms.py:328-346 | Resolves any existing alarm. |
| StepEffects.ResolvingResolves | backend/app/api/alarms.py:328-346 | Resolving changes the status of any existing alarm, hand-sent or not, and nothing else. |
| AlarmBackend.Backend.Send | backend/app/api/alarms.py:37-121 | Creates an alarm of a known site unless a live one of that site exists. |
| CreationEffects.SendAddsExactly | backend/app/api/alarms.py:37-121 | Sending adds an active alarm at level 0, for the user asked for, else the head of the chain, else the first user, and notifies him, exactly when the site is known and none of its alarms waits for an answer. |
| AlarmBackend.Backend.Report | backend/app/api/alarms_internal.py:238-363 | Upsert, liveness, reconciliation and dissensus in sequence, and the two flags answered. |
| CreationEffects.ReportActsExactly | backend/app/api/alarms_internal.py:238-363 | Whatever the tables, a report updates the gateway, adds an alarm when a gateway of the site seen within the window is open and the site has none unresolved, resolves the site's first unresolved alarm if a gateway raised it and none is open, and changes nothing else but dissensus dates. |
| AlarmBackend.Backend.ReconcileSite | backend/app/api/alarms_internal.py:286-312 | Creates when the site must be in alarm and has none; resolves only an alarm raised by a gateway. |
| AlarmBackend.Backend.FlagSite | backend/app/api/alarms_internal.py:314-356 | The two dissensus dates of the site's live gateway alarm, and whether the email goes out. |
| AlarmBackend.Backend.MarkSmsSent | backend/app/api/sms.py:52-64 | Stamps exactly one SMS. |
| AlarmBackend.Backend.MarkSmsFailed | backend/app/api/sms.py:67-81 | Counts one failure and stores the error of exactly one SMS. |
| EscalationRuns.TickEvolves | backend/app/escalation.py:366-382 | A tick moves an alarm to its successor exactly when the timer has a target for it, and otherwise leaves it but for an expired acknowledgement. |
| StepEffects.TickOnAlarmExactly | backend/app/logic/escalation.py:58-85 | All that a tick does to an alarm: an ended acknowledgement wakes it up, and it moves to its successor iff it waits for an answer, its level is at least the delay old, and its user is no longer being contacted or three more minutes have passed. |
| EscalationRuns.StepEvolves | backend/app/escalation.py:366-382 | No step, of any kind, does anything else to an alarm's assignee, timer, count or notified users. |
| EscalationRuns.StepKeepsIdentity | backend/app/escalation.py:366-382 | Whatever the chain and the users, no step removes an alarm or changes its title, source, site or first date. |
| EscalationRuns.CumulativeEscalation | backend/app/escalation.py:366-382 | Over any run mixing timer, admin button and key "2", the escalation count alone determines the assignee and the notified users. |
| EscalationRuns.EscalationSegment | backend/app/api/calls.py:92-112 | From chain[i], after c escalations the assignee is chain[(i + c) mod n] and the notified users are exactly the min(c + 1, n) members from i on. |
| EscalationRuns.NobodyUnnotified | backend/app/escalation.py:56-67 | Along any run notified sets only grow and an alarm's identity never changes. |
| EscalationRuns.LoneMemberStaysPut | backend/app/logic/escalation.py:74-77 | With a one-user chain an alarm assigned to that user never moves. |
| EscalationRuns.TickLeavesNoOverdueAlarm | backend/app/logic/escalation.py:58-85 | After every tick no live alarm's timer is as old as delay + 3 min, whether or not any call goes out. |
| EscalationRuns.EscalationsKeepPace | backend/app/logic/escalation.py:58-85 | At any instant m times (delay + 3 min + tick gap) after creation, an unanswered alarm has been escalated at least m times. |
| EscalationRuns.EveryoneReachedInTime | backend/app/escalation.py:338-396 | At any instant n (or n - 1 from a member) times (delay + 3 min + gap) after its creation, an alarm left unanswered has notified every chain user. |
| EscalationRuns.TimerMovesAreSpaced | backend/app/logic/escalation.py:63-66 | Two timer escalations of one alarm are at least the delay apart, over any run. |
| ContactRuns.OneCallPerCycle | backend/app/escalation.py:449-455 | Between two expiries of its acknowledgement an alarm queues at most one call per user. |
| ContactRuns.OneSmsPerCycle | backend/app/escalation.py:441-447 | The same for SMS. |
| ContactDelivery.DueContactGoesOut | backend/app/logic/sms_timer.py:46-75 | After a leader's tick, an active or escalated alarm's notification at least the contact delay old carries both marks if its user exists, and each contact not yet marked when the section started is in its queue, with the user's number and the alarm's text, if he has a number. |
| ContactDelivery.EarlyContactWaits | backend/app/logic/sms_timer.py:46-62 | Until then both marks stay as they were, and only an acknowledgement that has just ended changes the notification's date. |
| ContactDelivery.EverybodyIsContacted | backend/app/escalation.py:403-457 | Over any run, while his alarm stays unanswered, a user's notification is unmarked before the first tick at least the contact delay after it, that tick leaves a call and an SMS for him in the queues if he has a number, and both marks stay on. |
| ContactRuns.CallsAreDue | backend/app/logic/sms_timer.py:46-75 | A call queued by a tick is for a live alarm and a notification at least the contact delay old, to its user's number, for the modem of the alarm's site; no call of the alarm was waiting for that number. |
| ContactRuns.SmsAreDue | backend/app/logic/sms_timer.py:46-75 | An SMS queued by a tick is one that OneSmsPerCycle counts, for a live alarm and a notification at least the contact delay old, with that user's number and that alarm's text, for the modem of the alarm's site; the same text was not waiting for that number. |
| ContactRuns.EnqueueDoublesOnlyTwins | backend/app/escalation.py:211-238 | One pending call per number and alarm is kept exactly when no two due notifications of an alarm share a number. |
| ContactRuns.SharedNumberIsCalledTwice | backend/app/database.py:15 | Two users with one number are both called in one tick. |
| ContactRuns.RunKeepsNoDoubleCall | backend/app/escalation.py:211-238 | With distinct numbers there is never more than one pending call per number and alarm, over any run. |
| ContactRuns.StepKeepsCallRows | backend/app/api/calls.py:70-120 | No step re-opens a closed call, and each result posted on a pending one uses up a try. |
| ContactRuns.CallLifecycle | backend/app/api/calls.py:31-38 | Over any run a call takes at most three results while pending, never comes back, and keeps its number, alarm and user. |
| QueueRows.TickCancelsCallsExactly | backend/app/escalation.py:125-140 | A tick cancels exactly the queued calls whose alarm is no longer to be answered, and touches no other row. |
| QueueRows.TickCancelsSmsExactly | backend/app/escalation.py:112-140 | A tick cancels exactly the queued SMS whose alarm is no longer to be answered: the alarm of the latest notification, up to the SMS, of a user with its number, the first of equals. |
| QueueRows.CallRowExactly | backend/app/api/calls.py:70-120 | A result closes its call but for an error, which leaves it queued; all but an answer cost a try; no other handler touches a call. |
| QueueRows.SmsRowExactly | backend/app/api/sms.py:52-81 | Sending stamps the SMS, a failure costs a try and leaves its message; no other handler touches an SMS. |
| QueueRows.SmsLifecycle | backend/app/api/sms.py:33-37 | Over any run an SMS fails at most three times while queued, never comes back once sent, given up or cancelled, and keeps its number and text. |
| ContactRuns.TickClearsObsoleteCalls | backend/app/escalation.py:125-140 | After a tick every pending call belongs to a live alarm. |
| ContactRuns.AckSilencesThirtyMinutes | backend/app/logic/ack_expiry.py:14-31 | The first tick after an acknowledgement leaves the alarm alone up to 30 minutes after it, and later restarts the timer and every notification. |
| AckRuns.SilenceEndsExactly | backend/app/api/calls.py:92-112 | Within its thirty minutes, exactly one kind of step breaks an acknowledgement: key "2" on one of the alarm's calls with somebody to go to; no other touches its assignee, level or timer. |
| AckRuns.AckStepAcknowledges | backend/app/api/calls.py:76-90 | Every way of acknowledging (app, key "1", answer by SMS, SMS reply) does the same to the alarm and nothing to the others. |
| AckRuns.AckHoldsExactly | backend/app/api/alarms.py:306-311 | Over a run, an acknowledgement, from the app, by key "1" or by SMS, holds through its thirty minutes iff no such key "2" comes meanwhile. |
| AckRuns.AckedIsNotContacted | backend/app/logic/sms_timer.py:46-75 | While it holds, no call and no SMS is queued for the alarm, for anybody. |
| ContactRuns.EscalationWaitsForContact | backend/app/escalation.py:80-105 | Before delay + 3 min the timer leaves a reachable user only once his call of this level is done and no SMS to him is left waiting. |
| SiteReconciliation.ReportSetsLevel | backend/app/api/alarms_internal.py:249-312 | After a report the site is in alarm iff a gateway seen within the window is open or a hand-sent alarm was there; other sites are untouched. |
| SiteReconciliation.RepeatedReportIsNoOp | backend/app/api/alarms_internal.py:238-363 | The same report again at the same instant changes nothing. |
| SiteReconciliation.ReportOrderDoesNotMatter | backend/app/api/alarms_internal.py:249-312 | Two gateways' reports at one instant give the same gateways and the same level in either order. |
| SiteReconciliation.HandSentStays | backend/app/api/alarms_internal.py:305-312 | A report neither resolves nor creates an alarm sent by hand. |
| DissensusRuns.RunIsWatch | backend/app/api/alarms_internal.py:316-356 | Over any run of the backend the two dates of an alarm move only by reports of its site that find it live, as the theorems on marks and reports suppose. |
| DissensusRuns.DateIsOfWatchedStretch | backend/app/api/alarms_internal.py:335-356 | The date recorded is that of the first report of the current divergent stretch among the reports that found the alarm live, and the email date says whether an email has gone out since. |
| DissensusRuns.RecordedStretchIsRealExactly | backend/app/api/alarms_internal.py:324-356 | The stretch recorded is the real one, judged on all reports, iff no divergence was going on unseen when it was recorded and no agreement has come unseen since. |
| DissensusRuns.RecordedDateIsRealExactly | backend/app/api/alarms_internal.py:324-356 | The same of the dates, when no two reports of the site come at one instant. |
| DissensusRuns.RecordedDateCanBeStale | backend/app/api/alarms_internal.py:324-356 | A run from empty tables (disagreement, acknowledgement, agreement, disagreement, expiry, report) in which the email goes out three seconds into a disagreement. |
| DissensusRuns.EmailExactlyWhen | backend/app/api/alarms_internal.py:335-350 | The email goes out iff a divergent report finds the alarm live more than five minutes after the recorded start, and none has gone out since that start. |
| DissensusRuns.EmailIsDated | backend/app/api/alarms_internal.py:341-344 | An email goes out at exactly the steps that date it on the alarm. |
| DissensusRuns.OneEmailPerStretch | backend/app/api/alarms_internal.py:324-356 | Whatever is acknowledged meanwhile, one real stretch of disagreement has at most one email, and two emails are more than five minutes apart. |
| DissensusRuns.AgreementBetweenEmails | backend/app/api/alarms_internal.py:351-356 | Between two emails some report finds the alarm live and the gateways in agreement. |
| DissensusRuns.DissensusEmailOncePerEpisode | backend/app/api/alarms_internal.py:316-356 | Where the recorded stretch is the real one, its email has gone out iff the disagreement has lasted over five minutes, and it goes out once. |
| DissensusRuns.WatchedMeansLive | backend/app/api/alarms_internal.py:324-333 | With one unresolved alarm per site, a report looks at the dates exactly when it finds the alarm live. |
| SiteReconciliation.ResolvedIsTerminalUnlessReopened | backend/app/api/alarms.py:306-311 | A resolved alarm stays resolved iff no notified user acknowledges it and no call of it is answered "2" with somebody to go to. |
| SiteReconciliation.ResolvedAlarmComesBack | backend/app/api/alarms.py:306-311 | A concrete resolved alarm that an acknowledgement brings back. |
| SiteReconciliation.SendDoublesOnlyOpenSite | backend/app/api/alarms.py:48-52 | Sending keeps one unresolved alarm per site iff it is refused or the site has none. |
| SiteReconciliation.AcknowledgedSiteGetsASecondAlarm | backend/app/api/alarms.py:48-52 | Sending to a site whose alarm is acknowledged creates a second one. |
| SiteReconciliation.OneOpenPerSiteExactly | backend/app/api/alarms_internal.py:290-294 | Exactly which steps keep one unresolved alarm per site. |
| SiteReconciliation.RunKeepsOneOpen | backend/app/api/alarms_internal.py:290-294 | Over any run without those steps every site has at most one unresolved alarm. |
| SiteReconciliation.AlarmFollowsContacts | backend/app/api/alarms_internal.py:249-312 | Over such runs, right after each report the site is in alarm exactly when one of its gateways heard of lately is open. |
| SiteReconciliation.CreatedIsFresh | backend/app/api/alarms_internal.py:97-185 | A created alarm meets the starting hypotheses of the escalation theorems. |
| SiteReconciliation.StepKeepsBelong | backend/app/escalation.py:56-67 | No step leaves a notification of an alarm that does not exist. |
| SiteReconciliation.AddedIsFresh | backend/app/api/alarms.py:37-121 | A step that adds an alarm is a sending or a report, and the alarm starts now, with nobody but its assignee notified. |
| SiteReconciliation.AddedAlarmReachesEveryone | backend/app/escalation.py:338-396 | Everyone is reached in time for an alarm created in the middle of a run, counted from the step that adds it. |
| ReplicaReinit.GuardMeansNoHealthyReplica | backend/app/logic/replica_reinit.py:58-61 | Comparing two lengths tells exactly whether every replica is stuck, when member names are distinct. |
| ReplicaReinit.DecisionIsSafe | backend/app/logic/replica_reinit.py:45-70 | A target is a stuck replica, due, first in line, under a running leader and no pause, nobody stuck in cooldown, not all replicas stuck, hence with a healthy one when member names are distinct. |
| ReplicaReinit.DueIsServed | backend/app/logic/replica_reinit.py:53-67 | With a healthy replica, a due member and nobody cooling down, somebody is chosen. |
| ReplicaReinit.FirstInLineIsEarliest | backend/app/logic/replica_reinit.py:67 | Among equals the earliest member is chosen. |
| ReinitAlerts.AlertExactlyWhen | backend/app/logic/replica_reinit.py:45-62 | With distinct names and a running leader, a look alerts iff no replica follows the leader and some lagging one is overdue, and names exactly the overdue ones, once each. |
| ReinitAlerts.RecloneExactlyWhen | backend/app/logic/replica_reinit.py:45-70 | It re-clones iff some replica follows, some lagging one is overdue and none lagging was handled in the last hour; the one chosen is overdue, never handled if any such is, else handled longest ago. |
| ReinitAlerts.NothingUnlessRunning | backend/app/logic/replica_reinit.py:46-50 | Without a look, a running leader, or during maintenance, nothing is done. |
| ReplicaReinit.ReplicaMonitor.Tick | backend/app/quorum_monitor.py:257-312 | The leader's two dictionaries and the action after a tick, in every case. |
| ReinitRuns.ActionsAreSpaced | backend/app/quorum_monitor.py:276-296 | Over any run two actions on one member are at least 60 minutes apart. |
| ReinitRuns.ActionsAreJustified | backend/app/logic/replica_reinit.py:45-57 | A member acted on was stuck at every look over a stretch at least `after` long. |
| ReinitRuns.ActionIsDue | backend/app/logic/replica_reinit.py:45-70 | In the same snapshot the leader is running, the cluster is not paused, a replica is healthy when member names are distinct, and no stuck member was handled in the last hour. |
| ReinitRuns.StuckMemberIsServed | backend/app/logic/replica_reinit.py:62-67 | Fairness: of k members ever stuck, one that stays stuck is re-cloned within after + k * (60 min + tick gap). |
| ReinitAlerts.EveryReplicaIsAlerted | backend/app/quorum_monitor.py:280-291 | While no replica ever follows the leader, at every tick at least `after` into the term, and an hour after what it began with, each replica has been named by an alert of the last hour. |
| QuorumDetection.EvaluateQuorumLoss | backend/app/logic/quorum_detection.py:81-105 | The backward walk with early exit computes the evaluation of the history sorted from the latest. |
| QuorumDetection.EvaluationIsContinuousLoss | backend/app/logic/quorum_detection.py:81-105 | On any history in any order, the loss is reported iff the unbroken unhealthy run that ends now is longer than 3 min, since the start of that run. |
| QuorumDetection.RunStartIsUnique | backend/app/logic/quorum_detection.py:87-99 | The start of the unbroken unhealthy run is determined by the history. |
| QuorumDetection.RunStartExists | backend/app/logic/quorum_detection.py:87-99 | Every history whose snapshots of one instant agree has such a start. |
| QuorumDetection.OrderMattersWhenTheyDisagree | backend/app/logic/quorum_detection.py:87-99 | Two snapshots of one instant that disagree give one answer in one order and the other in the other. |
| QuorumDetection.ReminderIsLongestDue | backend/app/logic/quorum_detection.py:161-171 | The reminder chosen is the longest window due and not sent, and none iff nothing is due. |
| QuorumMonitor.RemindersRoundTrip | backend/app/quorum_monitor.py:99-110 | Storing and reading back reminders is the identity iff every entry is a whole number of seconds. |
| QuorumMonitor.QuorumMonitor.RunQuorumCheck | backend/app/quorum_monitor.py:158-209 | The row and the email after one check, in every branch. |
| QuorumMonitor.QuorumMonitor.OneTick | backend/app/quorum_monitor.py:437-456 | A non-leader forgets its history; a leader trims it to five minutes, adds the snapshot and checks. |
| QuorumMonitor.TermHistory | backend/app/quorum_monitor.py:448-451 | The history in memory is exactly what was seen in the last five minutes of the term. |
| QuorumMonitor.WindowAnswersLikeHistory | backend/app/quorum_monitor.py:76-78 | With ticks at most two minutes apart the five-minute window answers like the whole history. |
| QuorumMonitor.LongerGapsHideALoss | backend/app/quorum_monitor.py:76-78 | For every longer gap there is a term in which the window misses a loss that the whole history shows. |
| QuorumMonitor.RecordedStartIsTrue | backend/app/quorum_monitor.py:162-179 | After every tick of a term the row records the true start of the loss in progress, and nothing when there is none. |
| QuorumMonitor.FirstTickForgetsTheIncident | backend/app/quorum_monitor.py:162-171 | The first tick of a term clears whatever incident the row holds. |
| QuorumIncidents.RunKeepsWellFormed | backend/app/quorum_monitor.py:158-209 | In every reachable row reminders imply an initial email, which implies a recorded loss, and no window is stored twice. |
| QuorumIncidents.OneEmailOfEachKind | backend/app/quorum_monitor.py:183-205 | Within one incident no email is sent twice: one initial email, one reminder per window. |
| QuorumIncidents.RemindersComeAfterTheirWindow | backend/app/logic/quorum_detection.py:137-171 | Every reminder comes at least its window after an initial email of the same incident. |
| IncidentEmails.InitialExactlyWhen | backend/app/quorum_monitor.py:173-190 | Over any run the initial email goes out iff a leader's tick finds a loss, an address is set, and none has gone out in the incident. |
| IncidentEmails.ReminderExactlyWhen | backend/app/quorum_monitor.py:192-202 | A reminder goes out iff a leader's tick finds a loss, an address is set, and its window is the longest of 1, 3 and 6 hours passed since the initial email of the incident and not yet reminded of. |
| IncidentEmails.LosingTheLeadEndsTheIncident | backend/app/quorum_monitor.py:437-456 | Losing the lead forgets the history; the next leader's first tick finds no loss and closes the incident. |
| ReminderOrder.CheckKeepsOrderExactly | backend/app/logic/quorum_detection.py:161-171 | A check keeps the reminders on record in order iff it finds no loss, has no address, or the row holds no overtaken window: one due and unsent, the one it would choose, with a longer one on record. |
| ReminderOrder.OrderHoldsExactly | backend/app/quorum_monitor.py:192-205 | Over any run, the reminders stay in order iff no tick that can write finds an overtaken window in the row. |
| ReminderOrder.SteadyRunKeepsOrder | backend/app/quorum_monitor.py:174-205 | Through a term in which the alert address is always set, the reminders of every incident go out in order, however far apart the ticks are. |
| ReminderOrder.ShorterReminderCanFollowLonger | backend/app/quorum_monitor.py:174-205 | A run from a clear row, within one incident, in which the one-hour reminder goes out after the three-hour one because the address was missing. |
| LeaderLoss.EmailExactlyWhen | backend/app/logic/leader_loss.py:43-51 | Over any run an email goes out iff the leaderless stretch exceeds 3 min, has had no email, and none left in the last hour. |
| LeaderLoss.EmailsAreApart | backend/app/logic/leader_loss.py:43-51 | Any two emails are at least an hour apart and in different stretches. |
| LeaderLoss.LongStretchIsReported | backend/app/logic/leader_loss.py:43-51 | A stretch with a tick past 3 min and an hour after earlier emails has sent its email. |
| Dtmf.DtmfDecoder.constructor | gateway/dtmf_decoder.py:66-81 | A new decoder is idle. |
| Dtmf.DtmfDecoder.Reset | gateway/dtmf_decoder.py:83-87 | A reset decoder is as new. |
| Dtmf.BlocksAre | gateway/dtmf_decoder.py:156-185 | The blocks classified are the complete pieces of the block size, cut from the start of the buffer. |
| Dtmf.DtmfDecoder.DetectStream | gateway/dtmf_decoder.py:156-185 | The block loop computes the keys and the state of the anti-bounce; from idle, exactly the pressed keys. |
| Dtmf.DtmfDecoder.Detect | gateway/dtmf_decoder.py:125-154 | Returns the key of the first block that validates one, with the state right after that block, or none when no block does. |
| Dtmf.DecodesPressedKeys | gateway/dtmf_decoder.py:156-185 | For any block keys and any minimum: per silence-free segment, the keys of the runs long enough, adjacent repetitions collapsed. |
| Dtmf.CutAtBlockBoundary | gateway/dtmf_decoder.py:156-185 | A buffer cut at a block boundary, the state carried over, decodes as the whole. |
| Easter.EasterDateIsValid | backend/app/api/stats.py:35-52 | For every year of the calendar the result is a date from 22 March to 25 April. |
| Easter.EasterIsSunday | backend/app/api/stats.py:35-52 | That date is a Sunday, weekdays counted day by day from 1 January of year 1. |
| Easter.EasterFollowsTheFullMoon | backend/app/api/stats.py:35-52 | It is the first Sunday strictly after the paschal full moon of the Gregorian computus (golden number, corrected epact). |
| Easter.HolidaysFallOnTheirDays | backend/app/api/stats.py:55-63 | Every year the holidays are the first Monday after Easter, the sixth Thursday after it and the Monday after the seventh following Sunday: 1, 39 and 50 days after Easter by day number. |
| Easter.DayNumberIsInjective | backend/app/api/stats.py:55-63 | A day number determines the date, so those three dates are the only ones. |
| Connectivity.StatsConnectivity | backend/app/api/connectivity.py:107-142 | The event loop counts the drops of the window and the measure of its offline instants, for any log in time order. |
| Connectivity.TotalIsMeasureExactly | backend/app/api/connectivity.py:123-142 | For every log and window, the total is the measure of the offline instants of the window iff no event after now changes the status of now. |
| Connectivity.TotalIsMeasure | backend/app/api/connectivity.py:123-142 | For a log ending by now the total is the measure of the offline instants of the window, between 0 and the window. |
| Connectivity.ClampNeverActs | backend/app/api/connectivity.py:139-146 | Then the clamp changes nothing, and uptime is 100 or 0 exactly at the two ends. |
| Connectivity.LaterEventBreaksTheBounds | backend/app/api/connectivity.py:139-146 | An event stamped after now makes the total negative. |
| Connectivity.WindowSplits | backend/app/api/connectivity.py:111-121 | Totals add up when the window is split at any instant, the state carried by the earlier events. |
| Connectivity.TransitionsAgainstRows | backend/app/api/connectivity.py:80 | Transitions equal `went_offline` rows exactly when none repeats the row before it. |
| Connectivity.TwoEmittersWriteTwoRows | backend/app/api/devices.py:166-168 | Two emitters that read the user online before either commits write two rows for one transition; one that reads after the other writes none. |
| Resilience.CandidatesSeeEachOther | backend/app/logic/resilience.py:79-86 | In every topology and failure set, any two nodes that could lead are connected. |
| Resilience.OneWritableSite | backend/app/logic/resilience.py:88 | With no relay up at most one site can write. |
| Resilience.LeaderPossibleExactly | backend/app/logic/resilience.py:84-86 | A leader is possible iff a strict majority of voters is up and can meet. |
| Resilience.WritableExactly | backend/app/logic/resilience.py:88 | A site can write iff it has a node up and that majority can be met from it. |
| Resilience.OutcomeExactly | backend/app/logic/resilience.py:79-93 | Each field of the outcome in terms of the nodes up, relays, gateways and strict majorities of voters alone, with the exact keys of the maps. |
| Resilience.FailsExactly | backend/app/logic/resilience.py:88-91 | The evaluation fails iff a gateway answers from a site that is no node's and not the default one. |
| Resilience.DamageIsMonotone | backend/app/logic/resilience.py:79-93 | Taking down more nodes or gateways never turns any outcome from false to true, nor makes the evaluation fail. |
| Resilience.OutcomeIsConsistent | backend/app/logic/resilience.py:88-93 | Alarms imply a writing site, and writing or app access implies a leader. |
| WriteRelay.LeaderFirstIsTheStableOrder | backend/app/logic/write_route.py:10-15 | The order is the unique stable permutation of the peers with leader hosts first. |
| WriteRelay.UnknownLeaderKeepsOrder | backend/app/logic/write_route.py:10-15 | No cluster, no leader or an unknown host leaves the order unchanged. |
| WriteRelay.ProxyWriteToPrimary | backend/app/replica_proxy.py:134-173 | The peer loop with its early exit: which endpoints run, and the answer given. |
| WriteRelay.Hops | backend/app/replica_proxy.py:179-205 | Following a request through every node it reaches, it makes at most one hop, and none once marked. |
| WriteRelay.ServeRequest | backend/app/replica_proxy.py:179-205 | The middleware of the node a request reaches: run, refuse or relay. |
| WriteRelay.ServedLocally | backend/app/replica_proxy.py:112-123 | A leader, a node that does not relay, and any node for a request other than a write of the API (heartbeats, tests and deployments excepted) run it themselves; a relaying replica refuses a relayed write. |
| WriteRelay.WriteReachesTheLeader | backend/app/replica_proxy.py:134-205 | Whatever node a write reaches, with relaying everywhere and one reachable leader, it runs once, on the leader, whose reply is given. |
| WriteRelay.WriteRunsOnTheLeaderOnly | backend/app/replica_proxy.py:134-205 | Whatever links fail, it runs nowhere else and once at most, and a success is never answered without a run. |
| WriteRelay.AtMostOneExecution | backend/app/replica_proxy.py:112-173 | With relaying everywhere, distinct peers and one steady leader at most, the write runs at most once, on the leader, whatever replies are lost. |
| WriteRelay.ReachableLeaderAnswers | backend/app/replica_proxy.py:134-173 | A reachable leader among the peers runs the write exactly once and its answer is returned. |
| WriteRelay.SecondExecutionTakesALostReply | backend/app/replica_proxy.py:134-152 | Even if the lead moves during the request, without a lost reply the write runs at most once. |
| WriteRelay.RunsAtLeastOnceExactly | backend/app/replica_proxy.py:134-173 | The write runs at all iff some peer of the order executes it before an execution has been answered. |
| WriteRelay.RunsTwiceExactly | backend/app/replica_proxy.py:134-173 | The write runs twice or more iff two peers of the order execute it and no execution before the later one was answered. |
| WriteRelay.MovedLeaderRunsItAgain | backend/app/replica_proxy.py:134-152 | A concrete request that runs twice: its reply is lost and the lead has moved. |

## Left out

- Database, HTTP, threads and sleeps: each handler and tick is atomic, and its inputs are parameters.
- Minutes read from the configuration as floats: delays are whole microseconds.
- Texts: an SMS body is a function of site and title, a gateway alarm has one title, emails and pushes are reduced to whether and when they are sent; wake-ups are listed but have no effect on the tables.
- `delete_user`, the admin reset and chain edits while an alarm is open: they break the fixed chain of the run theorems.
- The on-call heartbeat (`_apply_oncall_heartbeat`) and its alarms.
- Acknowledgement names and dates, the message of an alarm, audit rows: written and never read by the modelled code.
- Row order: a query without ORDER BY is read in table order.
- The link from an SMS to an alarm is the code's heuristic: cancelling is exact with respect to it, not to the alarm the SMS was queued for.
- The listing of queued SMS (`/internal/sms/pending`), which filters like that of calls.
- ContactRuns.OneCallPerCycle: counts calls per (alarm, user) between expiries, not retries of one queued call, which CallLifecycle bounds.
- Memory of the re-cloning monitor on another node: a node that becomes leader starts from its own memory; the run theorems follow one node.
- Quorum monitor: at most one leader at a time is assumed, so that one history stands for every node; the text form of the stored list and its parse failures are not modelled.
- Leader-loss causes and their texts, gateway silence and site modem checks.
- The DTMF classifier (Goertzel magnitudes) is a function parameter.
- Working-hours filters and indicators in `stats.py` other than the moving holidays.
- Rounding of the uptime percentage and of the total to whole seconds.
- Resilience: the sentence, the list of alerts and the generated scenarios.
- Write relay: request bodies, headers other than the relay's own mark, and response headers; the mark is a flag, so repeated or differently spelled headers are not modelled.
- EscalationRuns.EveryoneReachedInTime: bounds notification, not the delivery of any SMS, call or push.
