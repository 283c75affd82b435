# Verification of the campus bot

These Dafny modules model the parts of the bot whose correctness depends on
several functions at once, and prove what those parts are for:

- **Channel groups** (`internal/channelgroup/api_channel_groups.go`). A group is a
  local row with a set of channels and perhaps a folder, backed by a remote user
  group and by the remote subscriptions of its channels. `MembershipProtocol` is
  the interleaved machine of Subscribe, Unsubscribe and DeleteChannelGroup calls
  over the group's read-write lock and the 64-bit generation counters;
  `MembershipHistory`, `GenerationCheck`, `GenerationWrap`, `GroupDeletion` and
  `SubscribeUndo` prove what it guarantees and where its guarantee ends, `SoloCalls`
  what each call does when it runs alone. `SubscribeLoop` and `FanOut` are
  the two channel algorithms, stated on request traces; `GroupSpec` and
  `SerialGroups` are the service under one caller at a time; `Folders` is creation
  with rollback and the folder actions under failing requests. `IdLists`, `Sprint`,
  `Remote` and `MemberGenerations` carry the id lists, the batching key, the request
  semantics and the counters.
- **The command language** (`internal/zulipbot/command`, `internal/zulipbot/bot.go`).
  `ChainScanner`, `ArgScanner` and `CommandParser` are the two scanners and the
  parser; `Spelling`, `ArgGrammar` and `ChainGrammar` say, apart from the scanners,
  how texts are spelled with quotes and backslashes and what each text means.
  `DispatchChain` is the chain evaluator, `ArgSpecs` the permission-filtered
  argument tree, `ArgFields` the flag and positional filler.
- **The event-patched caches** (`internal/zulipcache`). `SnapshotCache` is the
  compare-and-swap machine, `UserGroupsCache` and `StreamsCache` what each event
  does to a cached list, `KeyedLists` lists read as maps.
- **Two smaller pieces.** `ProcessedMessages` with `Timestamps` is the
  mark-before-callback discipline across crashes and cleanups;
  `AnnouncementTable` the escaped, column-major table.

The concurrent parts are state machines in which every lock operation, remote
request, transaction and atomic access is one step and threads interleave freely.
Code that changes variables step by step is imperative Dafny proved against a
specification function or a stated property; the properties of those functions are
lemmas. `Collections` and `Text` hold what several modules share.

## Where the code and expectations differ

Each of these has a condition, exact unless said otherwise, and a member that shows
the expectation failing: at a concrete input, or, for messages without a positive id
and for hidden roots, at every input that meets the condition.

- The request that undoes a failed Subscribe runs outside the group lock and does
  not look at generations: it can cancel another Subscribe of the same user that
  has already succeeded (`SubscribeUndo`). A user's membership is linearizable if no
  such undo takes the user out and no restore of a failed DeleteChannelGroup puts
  the user back; undos and restores that leave this user alone do not matter. The
  condition is exact when only subscribes touch the user. With other calls it is
  sufficient, and every linearizable run has, for an undo or restore that breaks
  it, a call running at that moment that changes the user's membership the same way.
- Generations wrap: an Unsubscribe deletes a user exactly when the number of adds
  since its snapshot is a multiple of 2^64 (`GenerationCheck`), and `GenerationWrap`
  gives a run with 2^64 finished subscribes in between. Linearizability does not
  depend on this, only the rule that later adds are spared does.
- The fan-out asks which other groups share channels of the group's *current* row:
  a covered pair is unsubscribed all the same exactly when the channel has left the
  row since the caller read it (`FanOut`).
- A failed Subscribe whose channel undo is accepted takes its users out of exactly
  the channels it touched, also those they had before; the touched channels are
  those of the rows read before its subscribe requests (`SubscribeLoop`).
- A failed creation rolls back folders, row and user group but not the
  subscriptions of the initial members; if no request fails before the rollback,
  they stay exactly when all channels exist (`Folders`).
- A failed update of a group's channels can have written the row: exactly when the
  failure is among the requests of the clean-up that follows. The clean-up makes
  none unless a channel is new and the group had members; it then reads the members
  again, and if one has left, makes one request more than there are new channels
  (`Folders`).
- A failed folder add does not take channels out again: if no request fails before
  its clean-up, the add succeeds exactly when every channel exists and has no folder,
  and a failed one leaves a channel in the new folder, which no row records and
  which is not archived, exactly when the channel with the smallest id exists and has
  no folder (`Folders`).
- A part returned by splitChain splits again to itself exactly when it ends in an
  even number of backslashes (`ChainScanner`).
- Timestamp texts drop trailing zeros, so within one second text order is not time
  order; a cleanup can delete a row up to a second too young (`Timestamps`,
  `ProcessedMessages`, which gives the kept rows exactly). Messages without a
  positive id are never marked.
- Filtering and parsing alone accept a command the role may not give exactly when
  its spec is hidden at the root and there are no arguments; only the authorization
  before them refuses it (`ArgSpecs`).
- Only the first copy of each flag is taken; the flags leave just the plain tokens
  exactly when each occurs at most once, and further copies are positional, so that
  their place counts (`ArgFields`).
- Removing members or subgroups from a cached group edits the published list in
  place before the compare-and-swap. That list changes exactly when a removed id
  stands before one that is kept; the published body is never affected
  (`UserGroupsCache`).

## Model

| member | source | states |
|---|---|---|
| MembershipProtocol.LockExcludes | internal/channelgroup/api_channel_groups.go:1470-1528 | In every reachable state of any number of threads an exclusive holder of the group lock is alone, and holders are exactly the threads inside their lock sections. |
| MembershipHistory.Linearizable | internal/channelgroup/api_channel_groups.go:1367-1568 | For every user and every run in which no undo takes this user out and no restore puts this user back, there is one sequential history of adds and removes, one entry per completed call, each inside its call's interval, that gives the user's membership at every step; an Unsubscribe whose user was added meanwhile is placed just before such an add. |
| MembershipHistory.RealTimeOrder | internal/channelgroup/api_channel_groups.go:1299-1388 | In any such history a call that ended before another began comes first. |
| MembershipHistory.InsertionPoint | internal/channelgroup/api_channel_groups.go:1553-1568 | When a snapshot has gone stale, the last add of the user lies inside the unsubscribing call, between its snapshot and its delete request. |
| GenerationCheck.DeletesIffNotReadded | internal/channelgroup/api_channel_groups.go:1511-1568 | At its delete request an Unsubscribe deletes a user if and only if the number of adds of that user since its snapshot is a multiple of 2^64; below 2^64 adds, if and only if there were none. |
| GenerationCheck.CountHolds | internal/channelgroup/api_channel_groups.go:1483-1537 | Between any two states of a run the generation plus the adds not yet bumped grows by exactly the adds made, modulo 2^64. |
| GenerationWrap.WrapDeletesReadded | internal/channelgroup/api_channel_groups.go:1511-1568 | A concrete run in which 2^64 subscribes of a user finish between an Unsubscribe's snapshot and its check, and the Unsubscribe deletes the user. |
| GroupDeletion.DeletedStaysEmpty | internal/channelgroup/api_channel_groups.go:962-992 | Once DeleteChannelGroup has succeeded, there is a step of it after which the member set is empty and the row absent in every state until the next import, in every interleaving, undo requests included. |
| GroupDeletion.RestoreIsExact | internal/channelgroup/api_channel_groups.go:967-987 | If deactivation fails and the restore succeeds, the members are exactly those the deletion read at its start, whatever ran in between. |
| GroupDeletion.RestoreIsTried | internal/channelgroup/api_channel_groups.go:962-992 | After a failed deactivation of a group that had members, the deletion is about to put back the members it read, until it has tried to: it neither ends nor does anything else before. |
| GroupDeletion.DrainHolds | internal/channelgroup/api_channel_groups.go:962-987 | While a deletion holds the lock nothing is added behind it: the members stay within those it read, and empty once it has emptied them. |
| SubscribeUndo.UndoCanCancelAnotherSubscribe | internal/channelgroup/api_channel_groups.go:1316-1326 | A concrete run with two subscribes of one user, one failing and undone, ends with the user outside although the other succeeded; no history explains it. |
| SubscribeUndo.SubscribesLinearizableIffClean | internal/channelgroup/api_channel_groups.go:1299-1336 | If only subscribes touch a user, the user's membership is linearizable if and only if no undo takes the user out. |
| SubscribeUndo.UncleanNeedsCall | internal/channelgroup/api_channel_groups.go:962-1388 | In every linearizable run an undo that takes a user out coincides with a running Unsubscribe or DeleteChannelGroup of the user, and a restore that puts a user back with a running Subscribe. |
| MemberGenerations.MemberOps.BumpMemberOpGenerations | internal/channelgroup/api_channel_groups.go:1530-1537 | Every listed user's counter grows by one, wrapping at 2^64, once however often it is listed; no other counter changes. |
| MemberGenerations.MemberOps.MemberOpGenerationsFor | internal/channelgroup/api_channel_groups.go:1539-1551 | The snapshot maps exactly the listed users to their counters, absent ones to zero. |
| MemberGenerations.MemberOps.MemberIdsUnchangedSince | internal/channelgroup/api_channel_groups.go:1553-1568 | Returns, without repetition, exactly the listed users whose counter equals the snapshot. |
| MemberGenerations.BumpMakesStale | internal/channelgroup/api_channel_groups.go:1530-1568 | A bump makes a snapshot stale for exactly the bumped users. |
| SoloCalls.SubscribeAlone | internal/channelgroup/api_channel_groups.go:1299-1336 | From any state with the lock free, and with no other thread moving, a Subscribe without failing requests ends successfully, with its users added to the members and their counters bumped, and frees the lock. |
| SoloCalls.UnsubscribeAlone | internal/channelgroup/api_channel_groups.go:1350-1458 | Likewise an Unsubscribe ends successfully with exactly its users taken out of the members. |
| SoloCalls.DeletionAlone | internal/channelgroup/api_channel_groups.go:962-992 | Likewise a deletion ends successfully with no members and no row. |
| IdLists.UniqueInt64s | internal/channelgroup/api_channel_groups.go:2195-2207 | The strictly increasing list of exactly the given ids. |
| IdLists.RemoveInt64s | internal/channelgroup/api_channel_groups.go:2209-2221 | The strictly increasing list of the ids of the first list that are not in the second. |
| IdLists.RemoveAttemptedInt64s | internal/channelgroup/api_channel_groups.go:2223-2231 | The strictly increasing list of the ids not attempted yet. |
| IdLists.IdsToAdd | internal/channelgroup/api_channel_groups.go:2169-2180 | The strictly increasing list of the requested ids that do not exist yet; nothing if none are requested. |
| IdLists.IdsToDelete | internal/channelgroup/api_channel_groups.go:2182-2193 | The strictly increasing list of the requested ids that exist; nothing if none are requested. |
| IdLists.ContainsInt64 | internal/channelgroup/api_channel_groups.go:2233-2240 | True if and only if the id is in the list. |
| IdLists.IncreasingIsUnique | internal/channelgroup/api_channel_groups.go:2195-2207 | A set of ids has only one strictly increasing list, so equal sets give equal lists. |
| Sprint.SprintInjective | internal/channelgroup/api_channel_groups.go:1960-1962 | Integer lists with the same fmt.Sprint text are the same list, so the batching key never merges different channel lists. |
| FanOut.UnsubscribeUsersFromChannelGroupChannels | internal/channelgroup/api_channel_groups.go:1895-1977 | On success each given pair of user and channel not covered through the queried rows is sent exactly once and no other pair at all, for every iteration order; every request sent was accepted; a failed run has sent some of these pairs, once each, and ended at an unanswered read, with nothing sent, or at a refused request; without failing reads and requests it succeeds. |
| FanOut.SharedChannelsByGroup | internal/channelgroup/api_channel_groups.go:1920-1933 | Maps each other group to exactly the target channels its rows list. |
| FanOut.CoveredChannelsByUser | internal/channelgroup/api_channel_groups.go:1938-1952 | In any order of the groups, a user keeps exactly the channels some sharing group with the user as a member lists; fails exactly if a member list cannot be read. |
| FanOut.CoveredMeans | internal/channelgroup/db/sql/query.sql:54-63 | Coverage through the query's rows is coverage by another group, restricted to the channels the group lists now. |
| FanOut.CoveredPairSentIffStale | internal/channelgroup/db/sql/query.sql:54-63 | A requested pair that another group covers is sent if and only if the group no longer lists the channel. |
| FanOut.StaleChannelLosesCover | internal/channelgroup/api_channel_groups.go:1908-1918 | A concrete database in which a user loses a channel another group of the user lists. |
| Remote.UnsubscribesRemoveSent | internal/zulipmock/client.go:2083-2122 | A trace of unsubscribe requests removes exactly the subscriptions it mentions. |
| SubscribeLoop.SubscribeUsersToCurrentChannelGroupChannels | internal/channelgroup/api_channel_groups.go:1804-1860 | With arbitrary channels and members at each read, and any requests refused. A user stays active if and only if it is on the member list of every finished round; the others are dropped. Every request of the trace was accepted and was due: a round's subscribe takes exactly the row's channels not subscribed before to exactly the users still active, and an unsubscribe follows a subscribe and takes exactly the users that the round's member list lacks out of all channels so far. No channel is attempted twice; touched pairs end subscribed exactly for active users and all other pairs are unchanged; a dropped user's last request unsubscribes it from every channel touched for it. On success every read was answered, and the row returned is read after the last subscribe request and lists only touched channels, so every active user has every channel of it; only if a clean-up takes the last user out is it the row read before that request. The loop fails exactly at an unanswered read or at a refused request that was due. It ends because 64-bit ids are finite. |
| SubscribeLoop.SubscribeOrUndo | internal/channelgroup/api_channel_groups.go:1312-1326 | Before the undo all of this holds of the requests sent. After a failed subscribe the users are out of the member set if the delete is accepted, whoever added them meanwhile; the channel undo is sent as the one further request, and if it is accepted, the users are unsubscribed from exactly the touched channels, which are those that some subscribe request of the call mentions, earlier subscriptions included. |
| SubscribeLoop.LosesEarlierSubscription | internal/channelgroup/api_channel_groups.go:1312-1326 | A concrete failed subscribe after which the user has lost a channel held before the call. |
| GroupSpec.RunKeepsAgreement | internal/channelgroup/api_channel_groups.go:734-1458 | Over any serial run of creates, imports, subscribes, unsubscribes with or without their channels, channel updates, deletions, archive and user-group events and start-up reconciliations, every member of a group is subscribed to every channel of the group, shared channels included. |
| GroupSpec.CallKeepsAgreement | internal/channelgroup/api_channel_groups.go:734-1458 | Each single call keeps that invariant, also when it fails. |
| GroupSpec.LeaveKeepsExactlyCovered | internal/channelgroup/api_channel_groups.go:1350-1458 | After leaving with its channels a user is subscribed to a channel of the group if and only if another group of the user lists it. |
| SerialGroups.Service.CreateChannelGroup | internal/channelgroup/api_channel_groups.go:734-873 | Without failures: the row lists exactly the channels, the user group has exactly the initial members, these are subscribed to all of the channels, and no other row, member set or subscription changes. |
| SerialGroups.Service.ImportZulipUserGroup | internal/channelgroup/api_channel_groups.go:897-913 | Adds an empty row if there is none and changes nothing else. |
| SerialGroups.Service.SubscribeToChannelGroup | internal/channelgroup/api_channel_groups.go:1299-1336 | Succeeds if and only if users are given and the row and the user group exist. Then the member set grows by exactly the users, and a pair is subscribed if and only if it was, or is one of the users with a channel of the row; nothing else changes. A failed call changes nothing. |
| SerialGroups.Service.UnsubscribeFromChannelGroup | internal/channelgroup/api_channel_groups.go:1350-1458 | Succeeds if and only if users are given, the row and the user group exist and, unless channels are kept, the members of every group that shares a channel can be read. On success the member set shrinks by exactly the users; a pair stays subscribed if and only if it was and it is not one of the users with a channel of the row, or channels are kept, or another group of the user lists the channel. A failed call leaves members and rows as they were, and also the subscriptions, except that a member removal that fails because the user group is gone is followed by subscribing the users to the row's channels. |
| SerialGroups.Service.UpdateChannelGroupChannels | internal/channelgroup/api_channel_groups.go:1051-1099 | The row becomes the old channels without the deleted ones plus the added ones, and the members get exactly the channels that are new. |
| SerialGroups.Service.UpdateGroupChannels | internal/channelgroup/api_channel_groups.go:1617-1653 | Deletes first and adds afterwards, so an id in both lists stays, and returns the new list; fails without effect if there is no row. |
| SerialGroups.Service.CleanupAddedChannels | internal/channelgroup/api_channel_groups.go:1778-1802 | Unsubscribes exactly the users that are no longer members from exactly the added channels still in the row; fails without effect if and only if there is something to clean up and the members cannot be read. |
| SerialGroups.Service.DeleteChannelGroup | internal/channelgroup/api_channel_groups.go:962-992 | Empties and deactivates the user group and removes the row; fails without effect if the members cannot be read. |
| SerialGroups.Service.RemoveChannelFromChannelGroups | internal/channelgroup/api_channel_groups.go:682-696 | Removes the channel from every row and nothing else. |
| SerialGroups.Service.RemoveDeletedUserGroupChannelGroup | internal/channelgroup/api_channel_groups.go:698-727 | Removes the row unless the user group is active. |
| SerialGroups.Service.InitializeChannelGroups | internal/channelgroup/api_channel_groups.go:237-287 | Keeps exactly the rows with an active user group, each with exactly the channels the bot is subscribed to. |
| SerialGroups.Service.ListOtherChannelGroups | internal/channelgroup/db/sql/query.sql:54-63 | Returns exactly the pairs of another group and a channel both groups list. |
| Folders.FolderService.CreateChannelGroup | internal/channelgroup/api_channel_groups.go:734-873 | Under any pattern of failing requests. Before the rollback no request but the one that ends the creation fails; without it the creation succeeds if and only if every channel exists (when there are users to subscribe) and has no folder (when a folder is created). If creation fails after the user group exists and no rollback request fails, which is so whenever one request fails in all and the channels allow the creation, then all channel folders and rows are as before, a created folder is archived and empty, and the user group is deactivated; the initial subscriptions stay, and are there, if no request failed before the rollback, exactly when all channels exist. On success folder, row and subscriptions are exactly as asked, and no channel was taken out of another folder. |
| Folders.LeftSubscribed | internal/channelgroup/api_channel_groups.go:734-873 | A concrete creation that fails at a channel of another folder and leaves the initial member subscribed to it. |
| Folders.FolderService.RollbackCreatedChannelFolder | internal/channelgroup/api_channel_groups.go:875-890 | From any prefix of added channels, an undo without failing requests restores every channel's folder and archives the new one, although it may stop at a conflict. |
| Folders.UndoReaches | internal/channelgroup/api_channel_groups.go:1682-1707 | Undo walks the same sorted list as the add and passes every added channel before it can stop. |
| Folders.UndoRestores | internal/channelgroup/api_channel_groups.go:1682-1707 | Clearing at least the added prefix gives back the folders from before the add. |
| Folders.FolderService.AddChannelsToFolder | internal/channelgroup/api_channel_groups.go:1655-1680 | Moves a prefix of the sorted channels into the folder, none of them out of another folder; without failing requests it stops exactly at the first channel that is missing or in another folder, naming that folder. |
| Folders.FolderService.RemoveChannelsFromFolder | internal/channelgroup/api_channel_groups.go:1682-1707 | Moves a prefix of the sorted channels out of the folder and touches no channel of another folder; stops as the add does. |
| Folders.FolderService.RejectChannelsOutsideGroupInFolder | internal/channelgroup/api_channel_groups.go:1709-1730 | Accepts only if every channel in the folder is the group's, otherwise names one that is not. |
| Folders.FolderService.RemoveChannelGroupFolder | internal/channelgroup/api_channel_groups.go:1193-1207 | Succeeds if and only if no request fails, the group exists, and its folder, if it has one, holds no channel of somebody else while its channels have no other folder. On success the folder holds no channel, is archived, and is cleared from the row; on failure the row keeps it, no request but the last can have failed, and if none did and the group has a folder, the result names a channel of somebody else in the folder or the channel at which the walk stopped. In every case the group's channels move only out of the recorded folder and no other channel moves. |
| Folders.FolderService.AddChannelGroupFolder | internal/channelgroup/api_channel_groups.go:1161-1191 | A folder is created if and only if the group has none, its user group is known, and the first three requests succeed; a group that has a folder is filled as by an assignment. On success all channels are in the recorded folder. If no request fails before the clean-up, a creation succeeds if and only if every channel exists and has no folder; otherwise a channel is left in the new folder if and only if the smallest channel id exists and has no folder, and if no clean-up request fails either, the row is as before and the folder archived unless a channel is left in it. Before the clean-up no request but the one that ends the add fails. In every case channels move only from no folder into that folder. |
| Folders.StrandsIffFirstIsFree | internal/channelgroup/api_channel_groups.go:1655-1680 | A failed walk into an unused folder leaves all folders as they were if and only if the smallest channel id is missing or in a folder; otherwise that channel is in the new folder. |
| Folders.FolderService.UpdateChannelGroupChannels | internal/channelgroup/api_channel_groups.go:1051-1099 | Under any pattern of failing requests: the row is written if and only if no request up to its transaction fails and the new channels exist (when there are members) and have no other folder (when the group has one); it then is the old channels without the deleted plus the added ones, the new channels are in the group's folder, and the members hold them. An update that has written the row fails if and only if one of the clean-up's requests does, and otherwise takes the new channels from the members that have left; an update that has not written it leaves the row as before. Only new channels move, from no folder into the group's. The number of requests before the clean-up is given, one or two for each new channel on its way into the folder included, so the request that fails decides whether the row is written. |
| Folders.FolderService.CleanupAddedChannels | internal/channelgroup/api_channel_groups.go:1778-1802 | Makes no request unless the row lists an added channel and there were members; then reads the members, and takes exactly the added channels the row lists from exactly the users that have left; a failing request ends it without effect. |
| Folders.WrittenButFailed | internal/channelgroup/api_channel_groups.go:1088-1090 | A concrete update that fails at its sixth request, the second read of the members, with the row already changed. |
| Folders.FolderService.AssignChannelGroupFolder | internal/channelgroup/api_channel_groups.go:1209-1214 | Succeeds if and only if no request fails, the group has a folder, and every channel exists and has no other one; then all channels are in it. If the group has a folder and it fails without a failing request, it stopped at the smallest channel that is missing or elsewhere, and names that folder. In every case the group's channels move only from no folder into the recorded one and no other channel moves. |
| Folders.FolderService.UnassignChannelGroupFolder | internal/channelgroup/api_channel_groups.go:1216-1221 | Succeeds if and only if no request fails, the group exists, and, if it has a folder, every channel exists and has no other one; then none of the channels has a folder. If the group has a folder and it fails without a failing request, it stopped at the smallest channel that is missing or elsewhere. In every case the group's channels move only out of the recorded folder and no other channel moves. |
| Folders.RunKeepsForeign | internal/channelgroup/api_channel_groups.go:1108-1221 | Over any serial run of folder actions, failing ones included, no channel enters or leaves a folder that is never the recorded folder of a group listing it. |
| Folders.ActPassesThroughNone | internal/channelgroup/api_channel_groups.go:1655-1707 | No action moves a channel straight from one folder into another. |
| Folders.StrandedChannel | internal/channelgroup/api_channel_groups.go:1185-1189 | A concrete failed add that leaves a channel in an unrecorded folder that is not archived. |
| ChainScanner.SplitChain | internal/zulipbot/command/parser.go:115-193 | The scanning loop returns exactly the parts or the first error of the specification. |
| ChainGrammar.ScanMeans | internal/zulipbot/command/parser.go:115-193 | Every non-blank text is a chain: texts spelled with bare and escaped characters and quoted stretches, with operators between them where none of these covers them, perhaps breaking off in a quote or at a backslash. However it is read so, splitting gives the trimmed texts with the operator before each, or the error: a first empty text, else what breaks off. |
| ChainScanner.SplitChainLossless | internal/zulipbot/command/parser.go:115-193 | On success the trimmed input is raw0 op1 raw1 ... opN rawN, each part the non-empty trim of its raw text, which holds no operator outside quotes and escapes. |
| ChainScanner.ResplitPart | internal/zulipbot/command/parser.go:115-193 | A returned part splits again to just itself if and only if it ends in an even number of backslashes. |
| ChainScanner.ResplitWithoutEscapedSpace | internal/zulipbot/command/parser.go:115-193 | If no backslash directly precedes white space, every returned part splits again to just itself. |
| ChainScanner.ResplitCanFail | internal/zulipbot/command/parser.go:115-193 | A concrete input whose part does not split again. |
| ArgScanner.SplitArgs | internal/zulipbot/command/parser.go:196-265 | The loop with its builder, quote, escape and mention jumps returns exactly the arguments or the error of the specification. |
| ArgGrammar.ScanMeans | internal/zulipbot/command/parser.go:196-302 | Every text is a line: white space between words, each word spelled with bare and escaped characters, quoted stretches and mentions, perhaps breaking off in a quote or at a backslash. However it is read so, scanning gives what each word says, in order; or a trailing-escape error if it breaks off right behind a backslash, else an unterminated-quote error if it breaks off. |
| ArgGrammar.PrintedArgsRoundTrip | internal/zulipbot/command/parser.go:196-302 | Arguments printed as plain words, in single quotes, in double quotes or with every character escaped, mixed at will and separated by any white space, are read back as they were. |
| ArgScanner.FindRunes | internal/zulipbot/command/parser.go:317-324 | Finds the first occurrence at or after the start, if there is one. |
| ArgScanner.ScanZulipMentionToken | internal/zulipbot/command/parser.go:267-293 | Recognizes a mention exactly when its closing delimiter follows, and returns its text and end. |
| ArgScanner.MentionIsOneArgument | internal/zulipbot/command/parser.go:196-302 | Where an argument begins, a mention in any of the six forms with a name free of asterisks, followed by white space or the end, is one argument taken literally, spaces, quotes and backslashes included, and the scan goes on behind it. |
| CommandParser.ParseChainRoundTrip | internal/zulipbot/command/parser.go:38-91 | For every chain of valid names, arbitrary arguments and operators, printing the arguments in double quotes with backslash and quote escaped and parsing gives back the same operators, names, arguments and raw arguments. |
| CommandParser.Parse | internal/zulipbot/command/parser.go:38-65 | A text without words is no command and a text that the scan refuses is malformed with its error; otherwise the first word names the command if and only if, lower-cased, it begins with a letter or digit and goes on with letters, digits, dashes and underscores, and then the name is the lower-cased word, the arguments are the other words, and the raw arguments the trimmed text behind the word as it was read. |
| CommandParser.ParsePrintedCommand | internal/zulipbot/command/parser.go:38-65 | The same for a single command. |
| CommandParser.SplitPrinted | internal/zulipbot/command/parser.go:115-193 | A printed chain splits into exactly the printed commands. |
| CommandParser.FirstIsAlways | internal/zulipbot/command/parser.go:67-91 | The first segment of a chain never carries an operator. |
| CommandParser.ParseChain | internal/zulipbot/command/parser.go:67-91 | The loop over parts returns all segments, or the first part's rejection. |
| DispatchChain.Dispatch | internal/zulipbot/bot.go:398-459 | For every chain, position by position: the command runs if and only if its operator is none or a semicolon, or && and the last command run before it succeeded, or || and that one failed; it starts in the state the commands run before it left; the log, contents and callbacks are those of the commands run, in order. The same is the left-associative short-circuit evaluation of the chain as an expression tree. |
| DispatchChain.ThenSequences | internal/zulipbot/bot.go:461-471 | A chain cut at a semicolon runs its first half, then its second half from the state the first left, whatever the first came to. |
| DispatchChain.AndStopsAtFirstFailure | internal/zulipbot/bot.go:461-471 | A chain of && dispatches exactly the commands up to its first failure. |
| DispatchChain.OrStopsAtFirstSuccess | internal/zulipbot/bot.go:461-471 | A chain of || dispatches a leading run of at least one command, of which all but the last failed and, if it is not the whole chain, the last succeeded. |
| ArgSpecs.RequiredPermission | internal/zulipbot/command/args.go:26-54 | The walk returns a restriction on the path the arguments select, or open if all are, and none on the path is stricter. |
| ArgSpecs.RequiredIsEveryRestriction | internal/zulipbot/command/args.go:26-54 | A role meets the required permission if and only if it meets every restriction on the path. |
| ArgSpecs.StricterIsBoth | internal/zulipbot/command/args.go:84-95 | A role meets the stricter of two restrictions if and only if it meets both. |
| ArgSpecs.FilterArgSpec | internal/zulipbot/command/args.go:56-82 | The recursion keeps exactly the subtrees whose root restrictions are allowed, in any map order. |
| ArgSpecs.FilteredParse | internal/zulipbot/command/args.go:56-82 | For an allowed role the filtered tree parses to the same result and leaf as the full tree; and if the root is not hidden, the filtered tree selects a leaf only where the required permission is met. |
| ArgSpecs.FilteredParseIsAllowed | internal/zulipbot/command/args.go:56-82 | If the root is not hidden and filtered parsing reaches a leaf or succeeds, the role meets every restriction on the path. |
| ArgSpecs.HiddenIsDenied | internal/zulipbot/command/args.go:26-82 | A tree hidden at its root requires a role that is not met on every path. |
| ArgSpecs.HiddenRootParsesAsNoArgs | internal/zulipbot/command/argparser.go:55-72 | A tree hidden at its root parses as a command without arguments although the role is not allowed. |
| ArgSpecs.FilteringAloneAdmitsIff | internal/zulipbot/command/argparser.go:55-72 | Filtering and parsing without authorization accept a command whose required permission is not met if and only if the tree is hidden at its root and there are no arguments. |
| ArgSpecs.ParseCommandArgs | internal/zulipbot/bot.go:516-582 | Accepts exactly when every restriction on the selected path is met, that is, the role is available and its number not above the restriction's, and the full tree parses, with that value; denies exactly when the role is available and above some restriction; answers that the role is unavailable exactly when it is and the path is restricted; and otherwise gives the full tree's error. |
| ArgSpecs.ParseIsLeaf | internal/zulipbot/command/argparser.go:55-72 | Parsing a tree is filling the fields of the leaf that its path reaches with the arguments left there, or an error that says where the path was lost. |
| ArgFields.RemoveFirst | internal/zulipbot/command/argparser.go:119-146 | The in-place loop drops exactly the first occurrence of the flag and keeps the order of the rest. |
| ArgFields.ExtractFlags | internal/zulipbot/command/argparser.go:119-146 | Over all fields: the tokens left and the flags found are those of the specification. |
| ArgFields.FillPositional | internal/zulipbot/command/argparser.go:148-174 | Fills exactly if every token taken converts and no required field lacks a token: the k-th positional field then holds the conversion of the k-th token, fields past the tokens stay zero, flags hold whether they were found, and the count of tokens used is returned; the usage error is given if and only if all tokens taken convert and a required field lacks one, a conversion error for the first token that does not convert. |
| ArgFields.ParseStruct | internal/zulipbot/command/argparser.go:94-117 | Extracting the flags in place, filling the rest and refusing tokens left over gives the value or the error of the specification. |
| ArgFields.ParseFieldsMeans | internal/zulipbot/command/argparser.go:94-174 | For distinct flags: the parse succeeds if and only if, after dropping the first copy of each flag, every token taken converts, no required field lacks one and none is left over; tokens left over are the error if and only if nothing else is wrong. |
| ArgFields.RemainingIsDrop | internal/zulipbot/command/argparser.go:119-146 | For distinct flags and any tokens, exactly the first copy of each flag is dropped, and a flag is set if and only if it was given. |
| ArgFields.SameDropParsesAlike | internal/zulipbot/command/argparser.go:94-174 | Token lists with the same flags and the same tokens but for those first copies give the same value or failure. |
| ArgFields.FlagsArePositionIndependent | internal/zulipbot/command/argparser.go:94-174 | For distinct flag names and token lists in which each flag occurs at most once, moving the flags anywhere leaves value and failure unchanged. |
| ArgFields.RemainingIsPlain | internal/zulipbot/command/argparser.go:119-146 | The flags leave exactly the tokens that are no flags, in order, if and only if each flag occurs at most once. |
| ArgFields.RepeatedFlagIsPositional | internal/zulipbot/command/argparser.go:119-146 | Two parses that differ only in the place of a repeated flag and give different values. |
| SnapshotCache.CacheAgrees | internal/zulipcache/user_groups.go:384-472 | In every state of every run of one event handler with stores, reads, expiries and invalidations, the cache is empty or its body decodes to the last stored response with the events handled since folded over it in order, with the expiry of that response. |
| SnapshotCache.EveryEventEnds | internal/zulipcache/user_groups.go:384-472 | In every state of every run the events handed to the cache are those whose handling has ended, in order, and the one in hand; those folded since the last store are exactly the ended ones but for those the cache ignores. |
| SnapshotCache.EmptiesOnlyFor | internal/zulipcache/user_groups.go:384-472 | A step empties the cache only to invalidate, to give up an event that could not be applied, on an inapplicable event, or because a reader finds the body expired. |
| SnapshotCache.StoredIsServed | internal/zulipcache/user_groups.go:414-472 | A reader that comes after a store and in time is served the stored body. |
| SnapshotCache.HandledAlone | internal/zulipcache/user_groups.go:384-407 | An applicable event that meets a fresh snapshot and no other step is folded into it, and the expiry kept. |
| SnapshotCache.ServedInTime | internal/zulipcache/user_groups.go:428-439 | No body is served later than its response's store time plus the time to live, however many events were folded in, and each decodes to a stored response with events folded over it. |
| SnapshotCache.EmptiedStays | internal/zulipcache/user_groups.go:384-407 | Once the cache is empty, whatever it holds later was stored after that. |
| SnapshotCache.InapplicableEventDrops | internal/zulipcache/user_groups.go:318-407 | An event the mutator cannot apply removes the pre-event snapshot and everything derived from its response for good; the following compare-and-swap cannot bring it back. |
| SnapshotCache.HandlingIsComplete | internal/zulipcache/user_groups.go:384-407 | When a handler returns, its event is folded into the cached list or the cache is empty. |
| UserGroupsCache.RemoveInt64s | internal/zulipcache/user_groups.go:527-539 | The in-place filter leaves exactly the values not removed, in order. |
| UserGroupsCache.AppendMissingInt64s | internal/zulipcache/user_groups.go:511-525 | Appends exactly the added values that were missing, keeping the order. |
| UserGroupsCache.RunMutator | internal/zulipcache/user_groups.go:245-382 | The mutator of each event edits the copied list as the specification says. |
| UserGroupsCache.EditRefinesApply | internal/zulipcache/user_groups.go:245-382 | The list edit of each event is the map update it means, an update given field by field, ids stay distinct, and exactly the events without a meaning for the cached groups invalidate. |
| UserGroupsCache.GateMeans | internal/zulipcache/user_groups.go:245-382 | The cache ignores exactly additions and removals of group id zero, and invalidates at once for exactly the member and subgroup changes without an operation. |
| UserGroupsCache.CachedGroupsAgree | internal/zulipcache/user_groups.go:245-472 | In every state of every run a cached body decodes to groups with distinct ids that are the stored groups under all events handed to the cache since and dealt with, as map updates, but for additions and removals with group id zero. |
| UserGroupsCache.RemovalScribblesOnPublishedList | internal/zulipcache/user_groups.go:527-539 | A concrete removal after which the published list is off until the compare-and-swap. |
| UserGroupsCache.ScribblesIff | internal/zulipcache/user_groups.go:302-382 | An event changes the published list before the compare-and-swap if and only if it removes ids from a list in which a removed id stands before one that is kept. |
| UserGroupsCache.ScribbledIffRemovedBeforeKept | internal/zulipcache/user_groups.go:527-539 | After the in-place filter the old slice shows its old values if and only if no removed value stood before a kept one. |
| StreamsCache.Upsert | internal/zulipcache/streams.go:217-237 | Replaces channels by id and appends new ones, one after the other, skipping id zero. |
| StreamsCache.RemoveIn | internal/zulipcache/streams.go:239-257 | The in-place filter keeps exactly the channels with other ids, in order. |
| StreamsCache.EditRefinesApply | internal/zulipcache/streams.go:217-326 | The list edit of each event is the map update it means, an update given field by field, ids stay distinct, and exactly the events without a meaning for the cached channels invalidate. |
| StreamsCache.GateMeans | internal/zulipcache/streams.go:217-326 | The cache ignores exactly deletions of no channels, and invalidates at once for exactly the updates without a channel id and archive updates without a boolean. |
| StreamsCache.CachedChannelsAgree | internal/zulipcache/streams.go:217-416 | In every state of every run a cached body decodes to channels with distinct ids that are the stored channels under all events handed to the cache since and dealt with, as map updates. |
| StreamsCache.UnknownPropertyInvalidates | internal/zulipcache/streams.go:259-303 | An update of a property the cache does not know invalidates. |
| ProcessedMessages.Bot.HandleMessage | internal/zulipbot/bot.go:1592-1690 | Handling one message without a crash is the run of its steps: the check and reply, the mark, and only then the callback; a message already marked, or a failing reply or mark, changes nothing. |
| ProcessedMessages.Bot.CleanupProcessedMessages | internal/zulipbot/bot.go:1270-1294 | Deletes what the two statements delete, and never a row in a later second than the cutoff and among the newest rows. |
| ProcessedMessages.ExpiryKeeps | internal/zulipbot/storage/db/sql/queries.sql:36-42 | Which rows expire, exactly, in terms of instants instead of their texts. |
| ProcessedMessages.CleanupKeeps | internal/zulipbot/storage/db/sql/queries.sql:40-51 | A row marked in a later second than the cutoff and among the newest rows survives a cleanup unchanged. |
| ProcessedMessages.CleanupExact | internal/zulipbot/storage/db/sql/queries.sql:40-51 | A cleanup keeps exactly the unexpired rows with fewer than the row limit of unexpired rows newer, all in terms of instants. |
| ProcessedMessages.EffectsBound | internal/zulipbot/bot.go:1619-1690 | Across any run with crashes and redeliveries a message's callback runs at most once more often than cleanups delete its row. |
| ProcessedMessages.EffectAtMostOnce | internal/zulipbot/bot.go:1619-1690 | Unless a message is delivered again after a cleanup has deleted its row, its callback runs at most once, whatever crashes and redeliveries happen, however long the run. |
| ProcessedMessages.RetainedInTime | internal/zulipbot/bot.go:1270-1294 | Redelivery within the retention period and among the newest rows always comes before the row is deleted. |
| ProcessedMessages.SubSecondLoss | internal/zulipbot/bot.go:1270-1294 | A concrete run in which a row half a second too young is deleted and the callback runs twice. |
| ProcessedMessages.UnmarkedRepeats | internal/zulipbot/bot.go:1417-1428 | A message without a positive id runs its callback at every delivery. |
| Timestamps.TextOrder | internal/zulipbot/storage/db/setup.go:18-22 | Of two instants the earlier text sorts first if and only if they do not share the second with the earlier fraction's digits beginning the later one's. |
| Timestamps.FormatInjective | internal/zulipbot/storage/db/setup.go:18-22 | Different instants have different texts. |
| AnnouncementTable.RenderTable | internal/zulipbot/handlers/renderer.go:62-110 | For mappings sorted by lower-cased short name and then emoji name, the nested loops write the header, the rule and one line per row of the column-major layout. |
| AnnouncementTable.EscapeIsOnePass | internal/zulipbot/handlers/renderer.go:55-60 | The composed replacements put one backslash before each special character and nothing else. |
| AnnouncementTable.UnescapeEscaped | internal/zulipbot/handlers/renderer.go:55-60 | Undoing the escapes gives every text back. |
| AnnouncementTable.TableReadBack | internal/zulipbot/handlers/renderer.go:62-110 | For non-empty, newline-free names and emoji names free of pipes and newlines, the table is the header and the rule, both given literally, and rows that, split at unescaped pipes and freed of escapes, give back the sorted mappings, entry i in column i / rows and row i mod rows, each once. |
| AnnouncementTable.EntryCells | internal/zulipbot/handlers/renderer.go:62-110 | The two cells of an entry are its short name with the special characters escaped and its emoji name between colons, each between spaces. |
| AnnouncementTable.RenderedReadsBack | internal/zulipbot/handlers/renderer.go:62-110 | The rendered table reads back as the given mappings, each as often as given, ordered by lower-cased short name and then emoji name. |

## Left out

- HTTP, JSON, SQLite, logging, timers and event-queue polling: encode and decode are an abstract pair, time is a natural number or an instant, a transaction is one step.
- The library sort: id lists are sorted by an insertion sort with the same result, the announcement table takes any copy sorted by its comparison, and the fan-out is proved for every order of its keys.
- Unicode: lower-casing is a parameter that keeps command-name characters, and invalid UTF-8 is not modelled.
- Member updates the server refuses for being already, or not yet, in effect: a request either takes effect as a set union or difference, or fails without effect.
- Agreement of subscriptions with membership under concurrent calls: the code does not give it, so it is proved for serial runs; concurrent runs have the membership and request-trace theorems.
- MembershipHistory.Linearizable: where other calls than subscribes touch the user, its condition is sufficient and not necessary, because a removing call that happens to run at the same moment can account for an undo; SubscribeUndo has the exact condition for subscribes and what such a run must contain otherwise.
- A waiting writer of Go's lock holds up later readers: the machine allows those interleavings too.
- SerialGroups.Service.CreateChannelGroup: covers creation without folder and without failing requests; Folders has both.
- SerialGroups.Service.UpdateChannelGroupChannels: covers groups without a folder and without failing requests; Folders has both.
- Folders.FolderService.UpdateChannelGroupChannels: the two answers to the member requests are parameters.
- Folders.FolderService.CreateChannelGroup: takes the ids the server hands out as parameters and leaves out reading the administrators group.
- DispatchChain.Dispatch: running one command is a function of the bot state; what the single commands do is not modelled.
- ArgFields.FillPositional: struct reflection is a list of field descriptors, and resolving mentions, users and channels is an abstract function.
- SnapshotCache.CacheAgrees: one request shape per cache and one event handler; different query strings are not modelled.
- Timestamps.TextOrder: the date part is the number of seconds, whose order the fixed-width text shares up to the year 9999.
- Edits of the server state by other clients, the round-robin client, restart and update, configuration, emoji-mapping commands, help and status texts.
