# vreiheit-bot core, modelled in Dafny

This project models the routing core of a Discord bot and the services that hang off it.

**Identifiers.** Every UI element carries a custom id of the form `prefix:id:arg:...`. A handler class has a namespace (`prefix`). A handler's full id routes an inbound id when the full id is a whole-segment prefix of the inbound id. An id that starts with `-` is taken as already fully qualified and bypasses the prefix.

**Dispatch.** The `interactionCreate` listener first drops an interaction whose id equals the last one processed, and records the id before any handler runs. It then scans the handler registry in order. Every key that matches the custom id fires: its handlers are awaited one after another, with the rest of the custom id, split on `:`, as their arguments. There is no try/catch around the handlers. A handler whose promise rejects therefore ends the listener, and no later handler runs for that interaction.

**Services.**
- The support-ticket workflow: creation behind a personal and a per-server quota, the ticket channel's name, closing, taking over and assigning a ticket, the buttons under a ticket, and the commands that edit the "open a ticket" message.
- The in-memory per-guild list of suspicious accounts and the reports posted about them.
- The two-role lifestyle toggle and the commands that configure its roles.
- The rule that finds a channel by id or by name.

Discord ids are strings. The ticket table is a sequence in insertion order whose ids count up from 1. Permissions, clocks and the results of Discord look-ups are parameters.

The quota gates compare with a strict `>`. An author with exactly two open tickets may therefore open a third, although the refusal message says no more than two may be open at once; likewise a server with 25 open tickets accepts a 26th. The model keeps the code's comparison, and `Support.AdmitAtTheLimits` and `Support.AdmittedCreationBound` state the resulting bounds.

Files:
- `wrappers.dfy`: `Option`.
- `strings.dfy`: JavaScript `split`, `join`, `slice`, `trim`, decimal rendering and `+s`.
- `components.dfy`: buttons.
- `meta.dfy`: the identifier scheme and the per-class metadata slot.
- `dispatch.dfy`: the listener and the moderation-log button ids.
- `support.dfy`, `suspicious_accounts.dfy`, `lifestyle.dfy`, `find_channel.dfy`: one file per service.

## Model

| member | source | states |
|---|---|---|
| Strings.Split | src/main.ts:64 | `split` on one character always yields at least one part, and no part contains the separator |
| Strings.SliceFrom | packages/discord/src/util/meta.ts:50 | `slice(k)` is what follows the first `k` characters, and empty past the end |
| Strings.FilterNonEmpty | packages/discord/src/util/meta.ts:52 | `filter(it => it)` yields only non-empty strings, exactly the non-empty values of the input, and no more entries than the input |
| Strings.FilterNonEmptyConcat | packages/discord/src/util/meta.ts:52 | filtering distributes over concatenation; with the contract on one-element lists, each non-empty part is kept once, in order |
| Strings.Join | src/main.ts:64 | `join(sep)`: `[]` joins to `""`, one part to itself, and each further part comes after a separator. `JoinSplit` and `SplitJoin` prove it is the inverse of `Split` |
| Strings.JoinSplit | src/main.ts:64 | joining the parts of a split gives the original string back |
| Strings.SplitJoin | src/main.ts:64 | splitting a join of separator-free parts gives the parts back |
| Strings.SplitConcat | packages/discord/src/util/meta.ts:34 | splitting `a + sep + b` yields the parts of `a` followed by the parts of `b` |
| Strings.Trim | src/discord/services/support.ts:121 | `trim()` yields a contiguous slice of the input with only white space cut away on either side, and no white space at either end of the result |
| Strings.TrimIdempotent | src/discord/services/support.ts:121 | trimming twice is trimming once |
| Strings.Decimal | src/discord/services/support.ts:529 | `${n}` is a non-empty digit string without a leading zero |
| Strings.ParseDecimalOfDecimal | src/discord/services/support.ts:465 | `+` applied to a rendered number gives the number back |
| Strings.DecimalInjective | src/discord/services/support.ts:372-375 | different numbers render differently |
| Meta.PrefixedId | packages/discord/src/util/meta.ts:32-36 | escaped id: the result is the id without its `-`. Truthy prefix: the segments are the prefix's segments followed by the id's (none for an absent or empty id). No prefix: the id, or `""` when it is absent |
| Meta.IsSegmentPrefix | packages/discord/src/util/meta.ts:40 | the matching rule `toCheck === full \|\| toCheck.startsWith(full + ":")`. `SegmentPrefixIffSplitPrefix` proves it is a prefix test on `:`-segments |
| Meta.IdMatches | packages/discord/src/util/meta.ts:38-41 | `idMatches` applies the matching rule to `prefixedId(prefix, id)`. `IdMatchesBySegments` proves it is a segment-prefix test |
| Meta.EscapeIgnoresPrefix | packages/discord/src/util/meta.ts:33 | an escaped id gives the same result under every prefix |
| Meta.SegmentPrefixIffSplitPrefix | packages/discord/src/util/meta.ts:38-41 | the matching rule holds iff the full id's segments are a prefix of the candidate's segments |
| Meta.MatchingKeepsSegments | packages/discord/src/util/meta.ts:40 | a matching candidate begins with the full id's segments |
| Meta.SegmentsGiveMatch | packages/discord/src/util/meta.ts:40 | a candidate that begins with the full id's segments matches |
| Meta.IdMatchesBySegments | packages/discord/src/util/meta.ts:38-41 | `idMatches` is a segment-prefix test on the full id |
| Meta.NotSegmentAligned | packages/discord/src/util/meta.ts:38-41 | `foobar` does not match prefix `foo`; `foo:bar` does |
| Meta.RemainingId | packages/discord/src/util/meta.ts:43-53 | the tail never holds an empty string or a `:`, and it is empty when the candidate is the full id |
| Meta.RemainingIdRoundTrip | packages/discord/src/util/meta.ts:32-53 | full id plus `:`-joined non-empty, colon-free segments matches, and its remaining id is those segments |
| Meta.RemainingIdTwoSegments | packages/discord/src/util/meta.ts:32-53 | `prefixedId(p, i):t1:t2` matches and gives back `[t1, t2]` |
| Meta.DiscordMeta.constructor | packages/discord/src/util/meta.ts:24-30 | `createMeta` yields an empty interaction list and no prefix |
| Meta.HandlerClass.GetDiscordMeta | packages/discord/src/util/meta.ts:20-22 | the first call installs fresh empty metadata; a later call returns the installed object unchanged |
| Meta.GetDiscordMetaIdempotent | packages/discord/src/util/meta.ts:20-22 | two calls return one and the same object |
| Dispatch.Args | src/main.ts:61-64 | at least one colon-free argument. Empty key: the arguments join back to the whole id. Exact match: `[""]`. Otherwise: id == key + `:` + the joined arguments, so empty segments are kept |
| Dispatch.EmptyKeyMatches | src/main.ts:60 | the empty key matches only `""` and ids that start with `:` |
| Dispatch.ArgsAgreeWithRemainingId | src/main.ts:61-64 | with empty segments dropped, the listener's arguments equal `remainingId` |
| Dispatch.Invocations | src/main.ts:57-65 | the calls the scan plans: for each registry entry in order, when its key matches, its handlers in order with that key's arguments. `InvocationsSound`, `InvocationsAppend` and `MatchingKeyFires` give it meaning |
| Dispatch.InvocationsSound | src/main.ts:57-65 | every planned call belongs to a matching key, with that key's handler and arguments |
| Dispatch.InvocationsAppend | src/main.ts:57-59 | scanning two parts of the registry makes the first part's calls, then the second's |
| Dispatch.MatchingKeyFires | src/main.ts:57-65 | every matching key calls all its handlers in list order, between the calls of the keys before and after it |
| Dispatch.NoMatchNoCall | src/main.ts:60 | an id that no key matches makes no call |
| Dispatch.RunUntilRejected | src/main.ts:63-64 | the awaited calls: each planned call runs in order, and the first one that rejects is the last to run. The lemmas below characterise it |
| Dispatch.RunIsRejectionFreePrefix | src/main.ts:63-64 | what runs is a prefix of the planned calls; only its last call may reject; it stops early only at a rejecting call |
| Dispatch.RunWithoutRejection | src/main.ts:63-64 | when no handler rejects, every planned call runs |
| Dispatch.RunAfterClean | src/main.ts:63-64 | calls that do not reject pass through, and the run continues after them |
| Dispatch.RunStopsWithin | src/main.ts:63-64 | after a rejecting call, nothing planned later runs |
| Dispatch.Handle | src/main.ts:56-66 | one interaction: the planned calls for its custom id (absent reads as `""`), run until the first rejection. `RejectionEndsScan` and `OnInteractionCreate` rest on it |
| Dispatch.RejectionEndsScan | src/main.ts:57-66 | when entry `i` holds the first rejecting handler, the calls are the earlier entries' calls plus entry `i`'s calls up to the rejecting one |
| Dispatch.FireHandlers | src/main.ts:63-64 | the awaited loop makes exactly the calls up to and including the first rejection, and reports whether one rejected |
| Dispatch.Dispatcher.constructor | src/main.ts:52 | `lastProcessed` starts unset and no call has been made |
| Dispatch.Dispatcher.OnInteractionCreate | src/main.ts:53-67 | a repeated id changes nothing. Any other id is recorded as processed, whether or not a key matches, and the calls are those of the scan up to the first rejection |
| Dispatch.Deliver | src/main.ts:52-67 | a stream of interactions: each is handled unless its id equals the id just before it. `ReplayEvents` proves the listener against it |
| Dispatch.ReplayEvents | src/main.ts:52-67 | feeding a stream of interactions to a fresh listener makes exactly the calls `Deliver` describes |
| Dispatch.ImmediateDuplicateSuppressed | src/main.ts:54-55 | an interaction redelivered right after itself is handled once |
| Dispatch.NonAdjacentRedeliveryRuns | src/main.ts:52-55 | A, B, A handles A twice: only the latest id is remembered |
| Dispatch.DistinctIdsBothHandled | src/main.ts:54-55 | two interactions with different ids are both handled |
| Dispatch.ArgsOfBuiltId | src/main.ts:60-64 | an id built as key, `:`, and colon-free arguments joined by `:` matches the key and hands over exactly those arguments |
| Dispatch.PairRouting | src/main.ts:60-64 | `key:a:b` matches `key` and carries `[a, b]` |
| Dispatch.MessageDeleteId | src/main.ts:82 | the delete button's id `messages:delete:<channelId>:<messageId>`. `MessageDeleteRouting` states where it leads |
| Dispatch.MemberKickId | src/main.ts:86 | the kick button's id `members:kick:<authorId>:Unangebrachte Nachricht`. `MemberKickRouting` states where it leads |
| Dispatch.MemberBanId | src/main.ts:90 | the ban button's id `members:ban:<authorId>:Unangebrachte Nachricht`. `MemberBanRouting` states where it leads |
| Dispatch.MessageDeleteRouting | src/main.ts:82 | the delete button reaches `messages:delete` with `[channelId, messageId]`, and `messages` with `["delete", channelId, messageId]` |
| Dispatch.NamespaceRouting | src/main.ts:82 | the delete button seen from the `messages` key has the action as its first argument |
| Dispatch.MemberKickRouting | src/main.ts:86 | the kick button reaches `members:kick` with `[authorId, reason]` and never `members:ban` |
| Dispatch.MemberBanRouting | src/main.ts:90 | the ban button reaches `members:ban` with `[authorId, reason]` and never `members:kick` |
| Support.OpenCount | src/discord/services/support.ts:321-324 | the count of open tickets in a scope is at most the number of rows |
| Support.OpenCountSnoc | src/discord/services/support.ts:330-333 | the unfolding of `OpenCount` at an appended row, used by `AdmittedCreationBound` and `FailedCreationStillCounts` |
| Support.OpenCountUpdate | src/discord/services/support.ts:426-429 | replacing a row changes a count by what that row contributes before and after |
| Support.Admit | src/discord/services/support.ts:321-337 | refused as personal iff not a moderator and more than 2 open; refused as server iff not a moderator, personal gate passed, and more than 25 open; moderators always pass |
| Support.AdmitAtTheLimits | src/discord/services/support.ts:325 | exactly 2 personal and 25 server tickets are admitted; one more is refused, personal first; moderators pass anyway |
| Support.AdmittedCreationBound | src/discord/services/support.ts:321-345 | after a non-moderator's admitted creation, the author has at most 3 open tickets and the server at most 26 |
| Support.StoredDescription | src/discord/services/support.ts:308 | an empty description is stored as absent; any other is stored as given |
| Support.Sanitize | src/discord/services/support.ts:372-375 | the result holds only `[a-zA-Z0-9]`, and exactly the alphanumeric characters of the input |
| Support.SanitizeConcat | src/discord/services/support.ts:372-375 | sanitizing distributes over concatenation; with the contract on one character, each alphanumeric character is kept once, in order |
| Support.SanitizeKeepsAlphanumeric | src/discord/services/support.ts:372-375 | an alphanumeric name is kept as it is |
| Support.SanitizeIdempotent | src/discord/services/support.ts:372-375 | sanitizing twice is sanitizing once |
| Support.ChannelName | src/discord/services/support.ts:372-375 | the channel name consists of `[a-zA-Z0-9]` and `-` only |
| Support.ChannelNameInjective | src/discord/services/support.ts:372-375 | the channel name determines the ticket id and the sanitized display name |
| Support.FindOne | src/discord/services/support.ts:463-475 | `findOne` yields the first selected row, or none when no row is selected |
| Support.ParseTicketId | src/discord/services/support.ts:465 | an id string names a ticket number iff it is all digits |
| Support.FindTicket | src/discord/services/support.ts:463-468 | a found row carries the id `+ticketId` and is the first row with that id; nothing is found only when the text is no number or no row has that id |
| Support.FindByIdInWellFormed | src/discord/services/support.ts:463-468 | in a well-formed table, id `n` is found at row `n - 1`, and ids outside 1..size are not found |
| Support.FindTicketByRenderedId | src/discord/services/support.ts:463-468 | the rendered id of a ticket finds that ticket again |
| Support.TicketButtonId | src/discord/services/support.ts:529-540 | the ticket button id `support:<action>:<id>`. `TicketButtonRoutes` and `TicketButtonRoutesBack` state where it leads |
| Support.BuildActionRow | src/discord/services/support.ts:522-544 | closed ticket: exactly `support:remove:<id>`. Open ticket: `support:close:<id>` and `support:self-assign:<id>`, the latter disabled iff someone is assignee. No other button is disabled |
| Support.TicketButtonRoutes | src/discord/services/support.ts:529-540 | `support:<action>:<id>` reaches the key `@OnButton(action)` registers, with the rendered id as its one argument |
| Support.TicketButtonRoutesBack | src/discord/services/support.ts:423-468 | the handler a ticket's button reaches finds that same ticket with its argument |
| Support.TicketStore.SubmitCreate | src/discord/services/support.ts:305-379 | the outcome is `Admit` of the current counts. A refusal stores nothing. Otherwise one open row with the next id and the stored description is appended. It carries the new channel's id, with the channel named after the row, only when fetching the category, creating the channel and initialising it all succeed; otherwise it has no channel |
| Support.TicketStore.Close | src/discord/services/support.ts:423-434 | the named ticket becomes closed with a close time and nothing else changes; an unknown id changes nothing |
| Support.TicketStore.SelfAssign | src/discord/services/support.ts:444-461 | unknown ticket and the author's own ticket change nothing; any other actor becomes assignee of that ticket alone |
| Support.TicketStore.Assign | src/discord/services/support.ts:189-208 | outside a ticket channel nothing changes; inside, the member becomes assignee, or the previous assignee stays when the lookup yields nothing |
| Support.ClosedTicketOffersRemovalOnly | src/discord/services/support.ts:524-530 | after closing, the only button is the enabled removal button |
| Support.TakenOverDisablesSelfAssign | src/discord/services/support.ts:537-541 | once taken over, the take-over button is disabled and the close button is not |
| Support.CloseFreesQuota | src/discord/services/support.ts:426-429 | closing an open ticket lowers its author's open count by one and leaves everyone else's |
| Support.FailedCreationStillCounts | src/discord/services/support.ts:345-347 | a row saved before its channel could be made counts against both quotas, and its removal button finds no channel |
| Support.RemovalTarget | src/discord/services/support.ts:436-442 | the channel to delete is the found ticket's channel; nothing for an unknown ticket or one without a channel |
| Support.ChangeParticipant | src/discord/services/support.ts:161-187 | only in a ticket's channel is the user granted (add) or revoked (remove) access |
| Support.MessageUpdate | src/discord/services/support.ts:119-159 | trimmed `-` opens the editor before any permission check; then non-administrators are refused; then an absent or empty content is refused; otherwise the trimmed content is published |
| Support.PromptContent | src/discord/services/support.ts:261 | the stored content, or the default prompt when it is empty; never empty |
| Support.CreateButtonRoutesToForm | src/discord/services/support.ts:267 | the create button's id is the key `@OnButton("create")` registers, which it reaches with `[""]` |
| SuspiciousAccounts.SuspectIds | src/discord/services/suspicious-accounts.ts:100-108 | exactly the ids of the guild's rows flagged `suspect`; a single row gives its id once when it is a flagged row of the guild, and nothing otherwise |
| SuspiciousAccounts.SuspectIdsConcat | src/discord/services/suspicious-accounts.ts:100-108 | the query distributes over the rows; with the one-row case, each flagged row gives exactly one id, in row order |
| SuspiciousAccounts.IndexOf | src/discord/services/suspicious-accounts.ts:151 | `-1` iff absent; otherwise the first position of the id |
| SuspiciousAccounts.RemoveFirst | src/discord/services/suspicious-accounts.ts:150-152 | the list without its first occurrence of the id. `SpliceRemovesFirst`, `RemoveFirstMultiset` and `RemoveFirstFirstCopy` characterise it |
| SuspiciousAccounts.SpliceRemovesFirst | src/discord/services/suspicious-accounts.ts:150-152 | splicing at `indexOf` removes exactly the first occurrence |
| SuspiciousAccounts.RemoveAbsent | src/discord/services/suspicious-accounts.ts:150-152 | removing an unlisted id changes nothing |
| SuspiciousAccounts.RemoveFirstMultiset | src/discord/services/suspicious-accounts.ts:150-152 | removal takes away one copy of the id and keeps every other entry |
| SuspiciousAccounts.RemoveFirstFirstCopy | src/discord/services/suspicious-accounts.ts:150-152 | the first copy is the one removed; what follows stays in place |
| SuspiciousAccounts.AddThenRemoveNew | src/discord/services/suspicious-accounts.ts:137 | adding a new id and removing it gives the list back |
| SuspiciousAccounts.AddTwiceRemoveOnce | src/discord/services/suspicious-accounts.ts:137 | adding twice lists the id twice, and one removal leaves one copy |
| SuspiciousAccounts.AccountLists.constructor | src/discord/services/suspicious-accounts.ts:39 | the lists start empty |
| SuspiciousAccounts.AccountLists.Init | src/discord/services/suspicious-accounts.ts:100-109 | every cached guild's list is exactly its suspect ids; other guilds keep theirs |
| SuspiciousAccounts.AccountLists.Add | src/discord/services/suspicious-accounts.ts:137 | the id is appended to that guild's list only; a guild without a list fails and nothing changes |
| SuspiciousAccounts.AccountLists.Remove | src/discord/services/suspicious-accounts.ts:150-152 | that guild's list loses the first occurrence only; a guild without a list fails and nothing changes |
| SuspiciousAccounts.AccountLists.ListReply | src/discord/services/suspicious-accounts.ts:176-185 | the header and the mention lines joined by line breaks; nothing for a guild without a list |
| SuspiciousAccounts.MentionLine | src/discord/services/suspicious-accounts.ts:182 | the line `<@id> (id)` for one account. `ListReadsBack` proves the reply splits back into these lines |
| SuspiciousAccounts.MentionLines | src/discord/services/suspicious-accounts.ts:181-183 | one `<@id> (id)` line per id, in list order |
| SuspiciousAccounts.ListReadsBack | src/discord/services/suspicious-accounts.ts:179-183 | splitting the reply body on line breaks gives back one mention line per listed id, in order |
| SuspiciousAccounts.WithReason | src/discord/services/suspicious-accounts.ts:249-254 | the shape shared by the thread's first message and the re-flag notice: a first line and a `Grund:` line for a truthy reason, with absent lines filtered out and the rest joined by line breaks. `WithReasonLines` states the result |
| SuspiciousAccounts.WithReasonLines | src/discord/services/suspicious-accounts.ts:249-254 | the message has the reason line exactly when a non-empty reason is given |
| SuspiciousAccounts.ThreadStarter | src/discord/services/suspicious-accounts.ts:248-255 | the thread's first message: the suspect line for the member, then the reason line when a reason is given. `ThreadStarterLines` states the result |
| SuspiciousAccounts.ThreadStarterLines | src/discord/services/suspicious-accounts.ts:249-254 | without a reason the message is `Verdächtiger Account: <@id>`; with a one-line reason it splits into that line and `Grund: <reason>` |
| SuspiciousAccounts.ReflaggedNotice | src/discord/services/suspicious-accounts.ts:123-129 | the notice in a re-opened thread: the re-flag line for the member, then the reason line when a reason is given. `ReflaggedNoticeLines` states the result |
| SuspiciousAccounts.ReflaggedNoticeLines | src/discord/services/suspicious-accounts.ts:124-128 | without a reason the notice is `<@id> ist wieder als verdächtig markiert.`; with a one-line reason it splits into that line and `Grund: <reason>` |
| SuspiciousAccounts.StripMarkup | src/discord/services/suspicious-accounts.ts:285-286 | no `* \ _ ~ \|` remains, and every other character does |
| SuspiciousAccounts.StripMarkupConcat | src/discord/services/suspicious-accounts.ts:285-286 | stripping distributes over concatenation; with the contract on one character, each other character is kept once, in order |
| SuspiciousAccounts.StripMarkupKeepsPlain | src/discord/services/suspicious-accounts.ts:285 | text without markup is left alone |
| SuspiciousAccounts.StripMarkupIdempotent | src/discord/services/suspicious-accounts.ts:285 | stripping twice is stripping once |
| SuspiciousAccounts.SkipUpdate | src/discord/services/suspicious-accounts.ts:200-201 | an edit is skipped when its old content is non-empty and equal to the new content. `ChangedEditsAreReported` proves the converse |
| SuspiciousAccounts.ReportFor | src/discord/services/suspicious-accounts.ts:187-226 | nothing for non-suspects; an edit is skipped iff the content is unchanged and non-empty; every other event of a suspect is reported; message reports carry the delete button |
| SuspiciousAccounts.DeleteButton | src/discord/services/suspicious-accounts.ts:274-281 | the report's red `Löschen` button with the moderation log's delete id. `DeleteButtonRoutes` states where it leads |
| SuspiciousAccounts.ChangedEditsAreReported | src/discord/services/suspicious-accounts.ts:200-201 | a changed edit, or one whose old text was empty, is reported; an unchanged non-empty one is not |
| SuspiciousAccounts.DeleteButtonRoutes | src/discord/services/suspicious-accounts.ts:278 | the delete button reaches `messages:delete` with `[channelId, messageId]` |
| Lifestyle.ServerSettings.OnSetVeganRole | src/services/lifestyle.ts:77-88 | non-administrators and a missing role change nothing; otherwise only `veganRoleId` is written |
| Lifestyle.ServerSettings.OnSetNonVeganRole | src/services/lifestyle.ts:90-101 | non-administrators and a missing role change nothing; otherwise only `notVeganRoleId` is written |
| Lifestyle.SetRoleGate | src/services/lifestyle.ts:80-83 | saved iff an administrator gives a role; refused iff not an administrator |
| Lifestyle.ResolveRole | src/services/lifestyle.ts:141-147 | a role iff one is configured and the guild has it |
| Lifestyle.ToggleGate | src/services/lifestyle.ts:122-133 | unconfigured if either role is missing; then unaccepted rules; then missing pronouns; otherwise `on` is set |
| Lifestyle.Toggled | src/services/lifestyle.ts:135-137 | the roles after the toggle: `off` is removed if the fetched cache held it, and `on` is added if the cache lacked it. The lemmas below characterise it |
| Lifestyle.ToggledHoldsExactlyOn | src/services/lifestyle.ts:136-137 | afterwards the member holds `on` and not `off`, and no other role changes |
| Lifestyle.ToggleIdempotent | src/services/lifestyle.ts:136-137 | pressing the same button again changes nothing |
| Lifestyle.LastPressWins | src/services/lifestyle.ts:136-137 | one button and then the other is the same as the other alone |
| Lifestyle.SameRoleIsDropped | src/services/lifestyle.ts:136-137 | when both ids name one held role, the toggle removes it |
| Lifestyle.Member.ToggleLifestyleRole | src/services/lifestyle.ts:117-139 | a failed guard leaves the roles unchanged; otherwise `off` is removed if held and `on` added if not held, both tested against the roles as fetched |
| Lifestyle.ButtonRoles | src/services/lifestyle.ts:103-115 | the vegan button's `on` is the vegan role, the other button's `on` the not-vegan role |
| Lifestyle.ButtonRolesSwapped | src/services/lifestyle.ts:106-113 | the not-vegan button uses the vegan button's roles, swapped |
| Lifestyle.OnLifestyleButton | src/services/lifestyle.ts:103-115 | a press resolves both configured roles, swaps them for the not-vegan button, and then toggles |
| Lifestyle.ButtonsAreComplementary | src/services/lifestyle.ts:103-115 | with two different roles, each button leaves the member with its own role and without the other |
| Lifestyle.LifestylePrompt | src/services/lifestyle.ts:57-75 | two buttons for administrators; nothing for anyone else |
| Lifestyle.LifestyleKey | src/services/lifestyle.ts:103 | `@OnButton(action)` in the `lifestyle` class registers `lifestyle:<action>` |
| Lifestyle.PromptButtonsRoute | src/services/lifestyle.ts:65-69 | the prompt's button ids are the keys `prefixedId("lifestyle", action)` of the two handlers, and neither id matches the other key |
| Lifestyle.PromptKeys | src/services/lifestyle.ts:103-115 | the two button handlers register `lifestyle:vegan` and `lifestyle:not-vegan` |
| FindChannel.FetchById | src/messages/find-channel.ts:5 | a found channel has that id; the promise rejects iff no channel has it; it never yields nothing |
| FindChannel.IsNumericId | src/messages/find-channel.ts:4 | `/^[0-9]+$/`: non-empty and all digits |
| FindChannel.FirstNamed | src/messages/find-channel.ts:6-8 | the first channel in collection order with that name; nothing iff none has it |
| FindChannel.FindChannel | src/messages/find-channel.ts:3-9 | a non-empty all-digit text is looked up by id, rejecting when it is unknown; any other text by name, finding the first such channel or nothing |
| FindChannel.FindTextChannel | src/messages/find-channel.ts:11-13 | the same outcome as `findChannel`, rejection included |
| FindChannel.LookupKind | src/messages/find-channel.ts:4-8 | a numeric text finds only a channel with that id and rejects iff no channel has it; any other text never rejects, finds only a channel with that name, and finds nothing iff no channel has it |
| FindChannel.FirstOfDuplicateNames | src/messages/find-channel.ts:8 | of two channels with the same name, the first is found |
| FindChannel.EmptyTextIsAName | src/messages/find-channel.ts:4 | the empty text is looked up as a name and never rejects |

## Left out

- Discord effects are not modelled: replies, deferrals and their timing, modals, embeds and the embed layout, permission overwrites, creating and deleting channels and threads, command registration, and `sleep`. The model keeps the decisions that precede them: which button ids are built, who is granted or revoked access, and which channel is deleted.
- Persistence is an in-memory sequence of tickets and a map of lists; `withResource`, `withServer` and `getServerMember` are not part of this model. `Support.TicketStore.Close` and `Support.TicketStore.SelfAssign` leave the table unchanged for an unknown ticket, because what `withResource` does with a missing row is not visible.
- Support.TicketStore.SelfAssign: an unknown ticket yields `NoSuchTicket`; the handler itself fails on the null ticket at that point, with no state change either way.
- Support.TicketStore.SubmitCreate: when initialising a newly created channel fails, the channel stays on the server but is never recorded on the ticket. The model keeps no trace of such a channel, and `Support.RemovalTarget` cannot reach it.
- Support.RemovalTarget: a ticket without a channel, left by a failed creation, yields nothing. The handler passes the missing id to the channel fetch, whose outcome is not visible.
- Concurrency is not modelled: handlers interleave at every await, and two events for one ticket can interleave their reads and writes. Each operation here runs to completion.
- Dates are an opaque integer time stamp; `toLocaleString` is not modelled.
- `buildDiff` and the attachment and embed fallback of the message reports are not part of this model. A report is its title and its delete button.
- The `HasPermission` decorator and how the handler registry is populated are not part of this model. Permissions are boolean inputs, and the registry is a given sequence of keys with handler lists.
- Handlers are opaque labels. Whether a handler's promise rejects is given with each interaction as the set of rejecting labels.
- Thread selection for suspicious accounts (`getThread`, `createThread`) is not modelled beyond the text of the first message and the re-flag notice. The same holds for the channel-setting commands and for the forms that create tickets or edit the support message.
- Support.ParseTicketId: it reads only strings of decimal digits, where JavaScript's unary `+` also accepts signs, white space, exponents, hexadecimal and fractions. Such ids are treated as naming no ticket.
- Strings.Trim: it removes only ASCII white space, where JavaScript's `trim` also removes Unicode spaces and line terminators.
- Lifestyle.ToggledHoldsExactlyOn, Lifestyle.ToggleIdempotent, Lifestyle.LastPressWins: stated for two different role ids. When both ids name one role, the toggle drops it (`Lifestyle.SameRoleIsDropped`).
- The ticket status embed fields and the greeting sent into a new ticket channel are not modelled.
- The bot's start-up, presence cycling and other listeners in `src/main.ts` are not part of this model, apart from the moderation-log button ids.
