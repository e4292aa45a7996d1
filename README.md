# GROWI core, modelled in Dafny

This project models eight pieces of GROWI, a wiki built on Node.js and React. Each piece is stated and proved in Dafny:

- **Slack permission service of the slackbot proxy** (`slack.dfy`):
  - refreshing a relation's cached permission maps (the supported GROWI commands);
  - single-use and broadcast permission checks for a command in a channel;
  - the interaction check, which walks every relation and every command key.
- **Activity service** (`activity.dfy`):
  - parsing the comma-separated action lists of the audit-log configuration;
  - computing the set of available actions;
  - deciding whether an activity update is recorded;
  - planning the TTL index on the activity collection.
- **Admin users state container** (`admin_users.dfy`): the status filter, in which "All" excludes every other status; the search text; the modals; paging; the user requests that reload the page.
- **Full-text search page** (`search_page.dfy`):
  - parsing the location's query string;
  - building the search query;
  - paging;
  - storing results;
  - the select-all checkbox and the page selection;
  - the delete targets.
- **Page-deletion security settings** (`security_setting.dfy`): the four deletion types; the recursive and general partner of each type; the effect of setting a deletion authority on its partner; the dropdowns.
- **Table-of-contents restore plugin** (`relocate_toc.dfy`): renames every `ol` element to `ul` in place, throughout a tree of HTML nodes.
- **Sidebar page tree item** (`page_tree_item.dfy`): marking the target page, validating a title, the delete button's guard, and the item's children state.
- **Login form** (`login_form.dfy`):
  - separating duplicated-username errors from the other login errors;
  - the errors shown safely;
  - registration gating, the register action, the submit button and the sections of the front card;
  - the form's state during login, registration and switching.

`wrappers.dfy` holds `Option`, `Result` and `Outcome`. `text.dfy` holds JavaScript's `split` and `join`, `trim` and a character replace, with their round-trip and idempotence lemmas. Both parsers use them.

How the source is modelled:

- **Objects the source updates in place are classes.** These are the relation entity, the admin-users and security containers, the search page, the page-tree pages, the HTML nodes and the login form's React state. Pure logic is functions and lemmas. Each method with a loop is proved against a specification function.
- **I/O outcomes are parameters.** These include:
  - HTTP responses and the relation's distance to expiry;
  - `decodeURI` and `decodeURIComponent`, as functions that return `None` on a malformed escape;
  - the delete-config validator.
- **Constant lists defined outside the core are a `Catalog` parameter.** These are the supported actions, the action groups and the notified actions.

## Model

| member | source | states |
|---|---|---|
| Text.JoinSplit | packages/app/src/server/service/activity.ts:21 | Splitting at a separator and joining with it gives back the original string. |
| Text.SplitJoin | packages/app/src/server/service/activity.ts:21 | Joining a non-empty list of pieces that do not contain the separator and splitting again gives back the same pieces. |
| Text.SplitNoSep | packages/app/src/components/SearchPage.jsx:87-88 | A string without the separator splits into itself alone. |
| Text.SplitAppendSep | packages/app/src/server/service/activity.ts:21 | Splitting two strings joined by a separator gives the pieces of the first followed by the pieces of the second. |
| Text.TrimIsInfix | packages/app/src/server/service/activity.ts:21 | A trimmed string is a contiguous slice of the original, and a non-empty one neither starts nor ends with white space. |
| Text.TrimIdempotent | packages/app/src/server/service/activity.ts:21 | Trimming twice is trimming once. |
| Text.ReplaceAll | packages/app/src/components/SearchPage.jsx:88 | Replacing every occurrence of a character keeps the length, and every position holds the replacement exactly where the original held the replaced character. |
| Slack.Lookup | packages/slackbot-proxy/src/services/RelationsService.ts:84-88 | A command's permission is found exactly when the command is an own key of the map, and it is that key's value. |
| Slack.SyncSupportedGrowiCommands | packages/slackbot-proxy/src/services/RelationsService.ts:27-48 | A null relation fails with a dereference error. A failed fetch fails and leaves the relation unchanged. A successful fetch writes both permission maps and sets the expiry to 48 hours after now; the relation is returned when the save succeeds, and a save failure is reported otherwise. |
| Slack.SyncRelation | packages/slackbot-proxy/src/services/RelationsService.ts:50-76 | Expired relation: synced in the foreground and returned when both the fetch and the save succeed, and null when either throws. Live relation: returned unchanged, with a background refresh when it expires within the refresh window. A null relation stays null. |
| Slack.IsPermitted | packages/slackbot-proxy/src/services/RelationsService.ts:84-94 | A command is permitted exactly when its permission is `true`, or is a channel list that names the channel. |
| Slack.IsPermissionsForSingleUseCommands | packages/slackbot-proxy/src/services/RelationsService.ts:78-95 | Permitted exactly when the single-use map of the synced relation permits the command in the channel. False for a null relation, a failed fetch or a failed save. After an expired relation is refreshed, both maps are the fetched ones and the expiry is 48 hours after now. |
| Slack.IsPermissionsUseBroadcastCommands | packages/slackbot-proxy/src/services/RelationsService.ts:97-114 | The same as the single-use check, for the broadcast-use map, including the refreshed maps and expiry and the false answer when the fetch or the save fails. |
| Slack.Resolve | packages/slackbot-proxy/src/services/RelationsService.ts:140-145 | An interaction's permission comes from the single-use map when the command is there, and otherwise from the broadcast-use map. |
| Slack.CheckPermissionForInteractions | packages/slackbot-proxy/src/services/RelationsService.ts:116-163 | The nested loop over relations and command keys returns exactly the allowed relations, the disallowed URLs and the command name of the fold `Interactions`. |
| Slack.AllowedRelationsAreGranted | packages/slackbot-proxy/src/services/RelationsService.ts:147-154 | A relation is allowed iff it is one of the relations and some command key matching the action or callback id grants the channel. |
| Slack.DisallowedUrlsAreDenied | packages/slackbot-proxy/src/services/RelationsService.ts:147-156 | A GROWI URL is disallowed iff some relation with that URL has a matching command key that does not grant the channel. |
| Slack.CommandNameIsLastMatch | packages/slackbot-proxy/src/services/RelationsService.ts:129-138 | The reported command name is the last matching command key over all relations, or empty when none matches. |
| Slack.UnmatchedRelationContributesNothing | packages/slackbot-proxy/src/services/RelationsService.ts:132-136 | Keys that match neither id leave the result as it was. |
| Slack.CommandInBothMapsIsPushedTwice | packages/slackbot-proxy/src/services/RelationsService.ts:126-154 | A command present in both maps is visited twice and resolves from the single-use map both times, so the relation is allowed twice. |
| Slack.SingleUseTrueAllowsAnyChannel | packages/slackbot-proxy/src/services/RelationsService.ts:138-154 | A single-use permission of `true` allows the relation in any channel, and a callback id with a `:handler` suffix still matches. |
| Slack.ChannelListWithoutChannelDisallows | packages/slackbot-proxy/src/services/RelationsService.ts:143-156 | A channel list that lacks the channel disallows the relation's URL and allows nothing. |
| Slack.GrantsAgreesWithIsPermitted | packages/slackbot-proxy/src/services/RelationsService.ts:147-153 | The interaction check's grant test agrees with the single-command permission test. |
| Activity.KeepSupported | packages/app/src/server/service/activity.ts:22 | The kept actions are exactly the listed ones that are supported. |
| Activity.KeepSupportedAppend | packages/app/src/server/service/activity.ts:22 | The filter works piecewise on a concatenation, so it keeps the order and the multiplicity of the listed actions. |
| Activity.KeepSupportedSingle | packages/app/src/server/service/activity.ts:22 | A single action is kept iff it is supported. |
| Activity.TrimAll | packages/app/src/server/service/activity.ts:21 | Every piece is trimmed, and the number of pieces and their order are kept. |
| Activity.ParseActionString | packages/app/src/server/service/activity.ts:16-23 | An absent setting parses to no actions. Every parsed action is supported and contains no comma. The exact list follows from the two lemmas below. |
| Activity.ParseActionStringOfJoined | packages/app/src/server/service/activity.ts:16-23 | Parsing two comma-joined parts gives the actions of the first part, then those of the second, in order and with repetitions. |
| Activity.ParseActionStringOfItem | packages/app/src/server/service/activity.ts:16-23 | A comma-free item parses to its trimmed form if that is supported, and to nothing otherwise. |
| Activity.ParseActionStringMembership | packages/app/src/server/service/activity.ts:16-23 | An action is parsed iff it is supported and is some comma-separated piece after trimming. |
| Activity.ParseActionStringIsStable | packages/app/src/server/service/activity.ts:16-23 | Joining the parsed actions with commas and parsing again gives the same list. |
| Activity.Dedup | packages/app/src/server/service/activity.ts:90 | Removing duplicates as a `Set` does leaves no duplicates and keeps exactly the same members. |
| Activity.DedupKeepsFirstOccurrenceOrder | packages/app/src/server/service/activity.ts:90 | The deduplicated actions appear in the order of their first occurrence. |
| Activity.DedupOfDistinct | packages/app/src/server/service/activity.ts:90 | A list without duplicates is unchanged by deduplication. |
| Activity.Exclude | packages/app/src/server/service/activity.ts:84-85 | An action survives exclusion iff it was present and is not excluded. |
| Activity.ExcludeAppend | packages/app/src/server/service/activity.ts:84-85 | Exclusion works piecewise on a concatenation, so the kept actions keep their order and multiplicity. |
| Activity.ExcludeSingle | packages/app/src/server/service/activity.ts:84-85 | A single action is kept iff it is not excluded. |
| Activity.GetAvailableActions | packages/app/src/server/service/activity.ts:60-91 | The available actions have no duplicates. Every notified action is among them. An action is available iff it is in the group or the additional actions and not excluded, or it is notified. |
| Activity.ShouldUpdateActivity | packages/app/src/server/service/activity.ts:93-96 | An update is recorded iff the action is available. |
| Activity.OnActivityUpdate | packages/app/src/server/service/activity.ts:41-58 | The activity is updated iff the action is available, and `updated` is emitted iff moreover the update succeeds. |
| Activity.NotifiedActionsSurviveExclusion | packages/app/src/server/service/activity.ts:84-88 | A notified action is available even when it is configured as excluded. |
| Activity.ExcludedActionsAreDropped | packages/app/src/server/service/activity.ts:84-90 | An excluded action that is not notified is not available. |
| Activity.ActivityExpirationSeconds | packages/app/src/server/service/activity.ts:98-100 | Without a config manager the expiry is the default of 2592000 seconds; with one it is the configured value, possibly absent. |
| Activity.FindIndex | packages/app/src/server/service/activity.ts:107 | An index is found iff one has the name, and the found one is in the list with that name. |
| Activity.FindIndexIsFirst | packages/app/src/server/service/activity.ts:107 | The index found is the first one with the name, as `Array.prototype.find` returns. |
| Activity.PlanTtlIndexDecision | packages/app/src/server/service/activity.ts:98-125 | The existing index is dropped iff its expiry is absent or differs. A new index is created iff none existed or the old one was dropped. Nothing happens iff the expiry already matches. |
| Activity.WithoutIndex | packages/app/src/server/service/activity.ts:113-114 | After dropping, no index with the name is left. |
| Activity.WithoutIndexMembers | packages/app/src/server/service/activity.ts:113-114 | An index is left after the drop iff it was there and has another name. |
| Activity.WithoutIndexAppend | packages/app/src/server/service/activity.ts:113-114 | Dropping works piecewise on a concatenation, so the other indexes keep their order. |
| Activity.TtlPlanConverges | packages/app/src/server/service/activity.ts:98-125 | With an expiry set, applying the plan once leaves nothing to drop or create on the next start. |
| Activity.TtlPlanWithoutExpiryNeverSettles | packages/app/src/server/service/activity.ts:100-118 | With a config manager and no configured expiry, every start drops and recreates the index, provided `createIndex` accepts the unset expiry and stores an index without one. |
| AdminUsers.AfterClickKeepsAllExclusive | src/client/js/services/AdminUsersContainer.js:56-70 | A click keeps "All" exclusive, and it flips whether the clicked status is selected. |
| AdminUsers.ClickTwiceRestores | src/client/js/services/AdminUsersContainer.js:56-70 | Two clicks on an unselected status other than "All" restore a filter without "All". |
| AdminUsers.AfterClickTouchesOnlyClickedAndAll | src/client/js/services/AdminUsersContainer.js:56-70 | A click leaves every status other than the clicked one and "All" as it was, except that a click on an unselected "All" deselects all of them. |
| AdminUsers.AdminUsersContainer.constructor | src/client/js/services/AdminUsersContainer.js:14-39 | The initial state: no users, page 1, no paging limit, only "All" selected, both modals closed. |
| AdminUsers.AdminUsersContainer.SetNotifyComment | src/client/js/services/AdminUsersContainer.js:48-50 | The comment is stored. |
| AdminUsers.AdminUsersContainer.IsSelected | src/client/js/services/AdminUsersContainer.js:52-54 | True iff the status is in the filter. |
| AdminUsers.AdminUsersContainer.ClearStatusList | src/client/js/services/AdminUsersContainer.js:72-76 | The filter becomes empty. |
| AdminUsers.AdminUsersContainer.AddStatusToList | src/client/js/services/AdminUsersContainer.js:78-82 | The status is added to the filter and nothing is removed. |
| AdminUsers.AdminUsersContainer.DeleteStatusFromList | src/client/js/services/AdminUsersContainer.js:84-88 | Only the status is removed from the filter. |
| AdminUsers.AdminUsersContainer.HandleClick | src/client/js/services/AdminUsersContainer.js:56-70 | A selected status is deselected. An unselected "All" replaces the filter. Any other unselected status is added and deselects "All". "All" stays exclusive. |
| AdminUsers.AdminUsersContainer.HandleChangeSearchText | src/client/js/services/AdminUsersContainer.js:90-92 | The search text is stored. |
| AdminUsers.AdminUsersContainer.ClearSearchText | src/client/js/services/AdminUsersContainer.js:94-96 | The search text becomes empty. |
| AdminUsers.AdminUsersContainer.RetrieveUsersByPagingNum | src/client/js/services/AdminUsersContainer.js:103-121 | Fails iff the response lacks `paginateResult`, with the source's message and no state change. Otherwise it stores the users, the total, the limit and the page. |
| AdminUsers.AdminUsersContainer.RequestThenRetrieve | src/client/js/services/AdminUsersContainer.js:129-230 | A failed user request fails and changes nothing. A failed reload fails with its message and loses the payload. Otherwise the page is reloaded and the request's payload is returned. The active page never changes. |
| AdminUsers.AdminUsersContainer.ShowPasswordResetModal | src/client/js/services/AdminUsersContainer.js:144-149 | The modal opens for the given user. |
| AdminUsers.AdminUsersContainer.HidePasswordResetModal | src/client/js/services/AdminUsersContainer.js:155-157 | The modal closes. |
| AdminUsers.AdminUsersContainer.ToggleUserInviteModal | src/client/js/services/AdminUsersContainer.js:163-165 | The invite modal flips between shown and hidden. |
| AdminUsers.ToggleUserInviteModalTwice | src/client/js/services/AdminUsersContainer.js:163-165 | Toggling twice restores the modal. |
| AdminUsers.FirstClickReplacesAll | src/client/js/services/AdminUsersContainer.js:31-70 | From the initial state, a click on a status other than "All" leaves exactly that status selected. |
| Search.StripLeadingQuestionMark | packages/app/src/components/SearchPage.jsx:86 | Exactly one leading `?` is removed, and a string without one is kept. |
| Search.ElementKey | packages/app/src/components/SearchPage.jsx:87 | A key is the element's text up to its first `=`, or the whole element when there is none. |
| Search.RawValue | packages/app/src/components/SearchPage.jsx:88 | The raw value is the text between the first `=` and the next `=` or the end, and "undefined" when the element has no `=`. |
| Search.ElementValue | packages/app/src/components/SearchPage.jsx:88 | A value is missing exactly when decoding the raw value fails. Otherwise it is the decoded raw value with every `+` replaced by a space. |
| Search.GetQueryByLocation | packages/app/src/components/SearchPage.jsx:82-92 | The loop over the `&`-separated elements builds exactly the map of `QueryOf`, and it fails when any value fails to decode. |
| Search.QueryOfKeys | packages/app/src/components/SearchPage.jsx:86-89 | A key is in the parsed query iff some element has that key. |
| Search.QueryOfLastKeyWins | packages/app/src/components/SearchPage.jsx:86-89 | When a key repeats, the value of its last element wins. |
| Search.DecodedPlusBecomesSpace | packages/app/src/components/SearchPage.jsx:88 | A `+` that was escaped as `%2B` still becomes a space, because the replacement runs after decoding. |
| Search.CreateSearchQuery | packages/app/src/components/SearchPage.jsx:120-132 | The query is the keyword, then the trash exclusion if it is on, then the user-page exclusion if it is on. |
| Search.CreateSearchQueryDeterminesFlags | packages/app/src/components/SearchPage.jsx:120-132 | Two equal queries for one keyword have the same exclusion flags. |
| Search.CreateSearchQueryOrder | packages/app/src/components/SearchPage.jsx:124-129 | The trash exclusion is appended before the user-page exclusion. |
| Search.OffsetSteps | packages/app/src/components/SearchPage.jsx:186-187 | Page 1 starts at offset 0, and each next page starts one limit further. Offsets are non-negative for valid pages. |
| Search.ShortBodyPageIds | packages/app/src/components/SearchPage.jsx:201-207 | An id is requested iff some result with that id has no snippet or an empty one. |
| Search.CheckboxFor | packages/app/src/components/SearchPage.jsx:256-263 | None-checked iff nothing is selected; all-checked iff the selection is as large as the result count; indeterminate otherwise. |
| Search.Toggled | packages/app/src/components/SearchPage.jsx:250-255 | Only the toggled id flips membership. |
| Search.ToggledTwice | packages/app/src/components/SearchPage.jsx:250-255 | Toggling an id twice restores the selection. |
| Search.ResultIds | packages/app/src/components/SearchPage.jsx:272-274 | The ids are exactly those of the results. |
| Search.PagesToDeleteMembership | packages/app/src/components/SearchPage.jsx:282-291 | A delete target is listed iff its non-empty id is selected and some result carries its id, revision and path. |
| Search.PagesToDeleteAppend | packages/app/src/components/SearchPage.jsx:283-285 | The delete targets of two result lists put together are the targets of each, in order. |
| Search.InitialKeywordAsWrittenSearchesUndefined | packages/app/src/components/SearchPage.jsx:36 | As written, a location without `q` starts the page with the keyword "undefined" rather than "". |
| Search.InitialKeyword | packages/app/src/components/SearchPage.jsx:36 | Corrected: a missing `q` gives the empty keyword, and a present one gives its decoding. |
| Search.InitialKeywordWithoutQueryIsEmpty | packages/app/src/components/SearchPage.jsx:36 | The corrected keyword is empty without `q`. It differs from the as-written one iff decoding "undefined" is not empty. |
| Search.InitialPagingLimit | packages/app/src/components/SearchPage.jsx:45 | A missing or zero setting gives the default limit of 50; any other setting is used as is. |
| Search.SearchPage.constructor | packages/app/src/components/SearchPage.jsx:35-53 | The initial state: the given keyword, no results, page 1, the configured limit, both exclusions on, sort by relation score descending, two distinct empty selections. |
| Search.SearchPage.SwitchExcludeUserPages | packages/app/src/components/SearchPage.jsx:94-96 | The user-page exclusion flips. |
| Search.SearchPage.SwitchExcludeTrashPages | packages/app/src/components/SearchPage.jsx:98-100 | The trash exclusion flips. |
| Search.SearchPage.OnChangeSortInvoked | packages/app/src/components/SearchPage.jsx:102-107 | The new sort and order are stored. |
| Search.SearchPage.Search | packages/app/src/components/SearchPage.jsx:162-236 | See the note below the table. |
| Search.SearchPage.ResetSelection | packages/app/src/components/SearchPage.jsx:164-167 | A fresh, empty selection, and the checkbox shows none checked. |
| Search.SearchPage.ClearResults | packages/app/src/components/SearchPage.jsx:170-181 | Keywords, results, meta and count are cleared, and the page is reset to 1. |
| Search.SearchPage.StoreResults | packages/app/src/components/SearchPage.jsx:211-231 | Non-empty results are stored with the first one focused, and the count is the meta's `total`, left undefined (`None`) when the meta has none; the page is kept only for the same keyword. Empty results clear everything and focus nothing. |
| Search.SearchPage.ComponentDidMount | packages/app/src/components/SearchPage.jsx:75-80 | A search happens iff the initial keyword is non-empty. Its request carries the query of that keyword, the limit, the offset of the current page and the sort. The selection is reset, and failed, found and empty responses update the state as `Search` does. Otherwise nothing changes. |
| Search.SearchPage.OnPagingNumberChanged | packages/app/src/components/SearchPage.jsx:137-139 | A request is sent iff the searched keyword is non-empty, with the new page's offset. The selection is reset. A failed request keeps the results and records the page. Found results are stored on the new page with the first one focused. Empty results return to page 1. |
| Search.SearchPage.OnSearchInvoked | packages/app/src/components/SearchPage.jsx:144-146 | A non-empty keyword sends the request for its query with the current limit and sort at offset 0, and the active page is 1 afterwards whatever the response. The selection is reset. A failed request keeps the results and the focus. Found results are stored with the keyword as the searched keyword and the first result focused; empty results clear the list. An empty keyword sends nothing and clears the results. |
| Search.SearchPage.OnPagingLimitChanged | packages/app/src/components/SearchPage.jsx:151-153 | The limit is stored. The last searched keyword is searched again with the new limit, at the current page's offset under that limit. The selection is reset. A failed request keeps the page, the results and the focus. Non-empty results are stored on the same page with the first one focused. Empty results return to page 1. No request is sent without a searched keyword. |
| Search.SearchPage.SelectPage | packages/app/src/components/SearchPage.jsx:238-245 | The focused result is the first result with the id. Some result is focused iff one has the id. |
| Search.SearchPage.ToggleCheckBox | packages/app/src/components/SearchPage.jsx:247-264 | The id's selection flips, and the checkbox reflects the selection size against the result count. |
| Search.SearchPage.ToggleAllCheckBox | packages/app/src/components/SearchPage.jsx:266-280 | Unchecking empties the selection. Checking adds every result id. |
| Search.SearchPage.SelectedPagesToDelete | packages/app/src/components/SearchPage.jsx:282-291 | There are never more delete targets than results; membership is `PagesToDeleteMembership`. |
| Search.SearchPage.DeleteSinglePageButtonHandler | packages/app/src/components/SearchPage.jsx:293-296 | The only delete target is the page, and the confirmation opens. |
| Search.SearchPage.DeleteAllPagesButtonHandler | packages/app/src/components/SearchPage.jsx:298-302 | Nothing happens with an empty selection. Otherwise the targets become the selection object itself, and the confirmation opens. |
| Search.SearchPage.CloseDeleteConfirmModalHandler | packages/app/src/components/SearchPage.jsx:304-306 | The confirmation closes. |
| Search.CreateSearchPage | packages/app/src/components/SearchPage.jsx:35-53 | The page mounts with the corrected initial keyword, so a location without `q` starts with "". |
| Search.UntickAfterDeleteAllChangesTargets | packages/app/src/components/SearchPage.jsx:247-302 | After "delete all", unticking a page also removes it from the pending delete targets, because both are one object. |
| Security.DeletionTypeForT | packages/app/src/components/Admin/Security/SecuritySetting.jsx:28-39 | Each deletion type has its own translation key. |
| Security.DeletionTypeForTIsInjective | packages/app/src/components/Admin/Security/SecuritySetting.jsx:14-39 | Equal translation keys mean equal deletion types. |
| Security.TypeWithFlags | packages/app/src/components/Admin/Security/SecuritySetting.jsx:46-57 | The type with given recursive and complete flags has exactly those flags. |
| Security.FlagsClassifyTypes | packages/app/src/components/Admin/Security/SecuritySetting.jsx:46-57 | The two flags determine the deletion type. |
| Security.RecursivePartner | packages/app/src/components/Admin/Security/SecuritySetting.jsx:81-95 | The partner is recursive and keeps the complete flag. |
| Security.GeneralPartner | packages/app/src/components/Admin/Security/SecuritySetting.jsx:206-212 | The partner is not recursive and keeps the complete flag. |
| Security.PartnersAreInverse | packages/app/src/components/Admin/Security/SecuritySetting.jsx:81-95 | The recursive and general partners are inverse to each other. |
| Security.SetDeletionConfigEffect | packages/app/src/components/Admin/Security/SecuritySetting.jsx:101-119 | The chosen type gets the new value. A general type also moves its recursive partner to that value when the validator rejects the pair. Every other authority is unchanged. |
| Security.SetGeneralLeavesPairValidOrEqual | packages/app/src/components/Admin/Security/SecuritySetting.jsx:108-116 | After setting a general type, it and its recursive partner form a valid pair or are equal. |
| Security.AdminGeneralSecurityContainer.ChangeAuthority | packages/app/src/components/Admin/Security/SecuritySetting.jsx:329-341 | Only the given type's authority changes, to the chosen value. |
| Security.AdminGeneralSecurityContainer.RecursiveDeletionConfigState | packages/app/src/components/Admin/Security/SecuritySetting.jsx:81-95 | The authority of the type's recursive partner. |
| Security.AdminGeneralSecurityContainer.SetDeletionConfigState | packages/app/src/components/Admin/Security/SecuritySetting.jsx:101-119 | The container's authorities change as `SetDeletionConfigEffect` describes. |
| Security.DropdownOptions | packages/app/src/components/Admin/Security/SecuritySetting.jsx:155-188 | Three options. Recursive types offer "inherit" and never "anyone"; general types do the opposite. |
| Security.DisplayedValue | packages/app/src/components/Admin/Security/SecuritySetting.jsx:146-151 | The current authority is shown, and "anyone" when none is set. |
| Security.AdminAndAuthorDisabledIffRejected | packages/app/src/components/Admin/Security/SecuritySetting.jsx:206-212 | "Admin and author" is disabled iff the type is recursive and the validator rejects it against the general partner's value. |
| RelocateToc.Rewritten | apps/app/src/services/renderer/rehype-plugins/relocate-toc.ts:27-29 | A tag changes iff it is an `ol` element, and no element keeps `ol`. |
| RelocateToc.RewrittenIdempotent | apps/app/src/services/renderer/rehype-plugins/relocate-toc.ts:27-29 | Rewriting a rewritten tag changes nothing. |
| RelocateToc.ReplaceOlToUl | apps/app/src/services/renderer/rehype-plugins/relocate-toc.ts:25-34 | Every node in the walked forest ends with the rewritten form of its original tag, and nothing outside it changes. |
| RelocateToc.RewriteNode | apps/app/src/services/renderer/rehype-plugins/relocate-toc.ts:26-33 | Every node of the child's subtree ends with the rewritten form of its original tag. |
| RelocateToc.ReplaceOlToUlTwice | apps/app/src/services/renderer/rehype-plugins/relocate-toc.ts:25-34 | Two runs leave the tree as one run does. |
| RelocateToc.CustomizeToc | apps/app/src/services/renderer/rehype-plugins/relocate-toc.ts:40-54 | A stored TOC node is returned with its whole tree rewritten, and a missing one stays missing. |
| RelocateToc.NestedListExample | apps/app/src/services/renderer/rehype-plugins/relocate-toc.ts:25-34 | A nested `ol` below a `ul` is renamed, and text and root nodes keep their tags. |
| PageTree.MarkTarget | packages/app/src/components/Sidebar/PageTree/Item.tsx:24-35 | Without a target id nothing changes. Otherwise a page is flagged iff it was flagged or its id is the target id. |
| PageTree.MarkTargetTwice | packages/app/src/components/Sidebar/PageTree/Item.tsx:24-35 | Marking twice is marking once. |
| PageTree.InputValidator | packages/app/src/components/Sidebar/PageTree/Item.tsx:131-140 | An error iff the title is missing or empty, with the "required" message. |
| PageTree.BlankTitleIsAccepted | packages/app/src/components/Sidebar/PageTree/Item.tsx:131-140 | A title of one space passes the validator. |
| PageTree.OnClickDeleteButton | packages/app/src/components/Sidebar/PageTree/Item.tsx:111-129 | No callback: nothing happens. A missing id, revision or path: the null-field error. Otherwise the callback gets exactly those three values. |
| PageTree.DeleteButtonRoundTrip | packages/app/src/components/Sidebar/PageTree/Item.tsx:111-129 | A complete page reaches the callback with its own id, revision and path. |
| PageTree.ItemState.constructor | packages/app/src/components/Sidebar/PageTree/Item.tsx:96-97 | The item starts with the node's children, and is open only when told so. |
| PageTree.ItemState.OnClickLoadChildren | packages/app/src/components/Sidebar/PageTree/Item.tsx:107-109 | The item flips between open and closed. |
| PageTree.ItemState.OpenIfHasChildren | packages/app/src/components/Sidebar/PageTree/Item.tsx:147-150 | An item with children opens, and an open item stays open. |
| PageTree.ItemState.SyncChildren | packages/app/src/components/Sidebar/PageTree/Item.tsx:155-160 | Longer children replace the current ones and are marked; otherwise nothing changes. |
| PageTree.ItemState.OnChildrenFetched | packages/app/src/components/Sidebar/PageTree/Item.tsx:165-171 | Fetched children become current only when the item is open and the fetch succeeded. Then each fetched page is marked iff it was marked or is the target page; otherwise the flags are unchanged. |
| PageTree.MountSyncEffectAsWritten | packages/app/src/components/Sidebar/PageTree/Item.tsx:155-160 | As written, the sync effect runs once at mount and neither replaces nor marks anything. |
| PageTree.ChildrenUpdateSyncs | packages/app/src/components/Sidebar/PageTree/Item.tsx:155-160 | Corrected: run on a change of children, longer children arriving after mount are marked and shown. |
| Login.SeparationMembership | apps/app/src/components/LoginForm.tsx:123-137 | The first list holds exactly the duplicated-username errors, and the second exactly the others. |
| Login.ErrorsArePartitioned | apps/app/src/components/LoginForm.tsx:123-137 | The two lists together are a permutation of the errors. |
| Login.DuplicatedUsernameErrorsDistribute | apps/app/src/components/LoginForm.tsx:127-134 | The duplicated-username filter distributes over concatenation, so input order is kept. |
| Login.OtherErrorsDistribute | apps/app/src/components/LoginForm.tsx:127-134 | The other-errors filter distributes over concatenation, so input order is kept. |
| Login.SeparateErrorsBasedOnErrorCode | apps/app/src/components/LoginForm.tsx:123-137 | The loop returns the duplicated-username errors and the other errors. Every error in the first list has that code, and none in the second. |
| Login.SafelyShownErrors | apps/app/src/components/LoginForm.tsx:170-177 | The shown list is the other errors, in order, then the external-account error if any. No duplicated-username error is shown except the external one. |
| Login.IsRegistrationEnabled | apps/app/src/components/LoginForm.tsx:66 | Registration is enabled iff the local strategy is set up and registration is not closed. |
| Login.RegisterAction | apps/app/src/components/LoginForm.tsx:365-371 | The form posts to the user-activation path iff email authentication is on, and to `/register` otherwise. |
| Login.ExternalAuthButtons | apps/app/src/components/LoginForm.tsx:301-306 | A button is shown iff its provider is enabled. |
| Login.ExternalAuthShownIffSomeButton | apps/app/src/components/LoginForm.tsx:46 | The external section shows iff at least one button does. |
| Login.IsRegisterSubmitDisabled | apps/app/src/components/LoginForm.tsx:505 | Disabled while loading, and also under email authentication without a mailer confirmed to be set up. |
| Login.ShowsCompleteRegistration | apps/app/src/components/LoginForm.tsx:539-541 | The "complete registration" notice shows iff registration is restricted, the registration succeeded and email authentication is off. |
| Login.CompleteRegistrationFollowsPlainRegister | apps/app/src/components/LoginForm.tsx:365-371 | When the notice shows, the form posted to `/register` and registration was not closed. |
| Login.Front | apps/app/src/components/LoginForm.tsx:548-582 | The local form shows iff local or LDAP is set up. Password reset shows iff the local form does and password reset is enabled. The sign-up link shows iff registration is enabled. The external section shows iff a provider is enabled. |
| Login.NoSignUpWhenClosed | apps/app/src/components/LoginForm.tsx:566-578 | Closed registration, or no local strategy, hides the sign-up link. |
| Login.LoginFormState.constructor | apps/app/src/components/LoginForm.tsx:49-64 | The form starts on login, not loading, with no errors and no registration order. |
| Login.LoginFormState.OnMount | apps/app/src/components/LoginForm.tsx:68-73 | The hash `#register` turns the card to registration. |
| Login.LoginFormState.ResetLoginErrors | apps/app/src/components/LoginForm.tsx:88-91 | The login errors become empty, and the state is untouched when they already were. |
| Login.LoginFormState.ResetRegisterErrors | apps/app/src/components/LoginForm.tsx:314-317 | The register errors become empty, and the state is untouched when they already were. |
| Login.LoginFormState.SwitchForm | apps/app/src/components/LoginForm.tsx:358-362 | The card flips, and both error lists are cleared. |
| Login.LoginFormState.HandleLoginWithLocalSubmit | apps/app/src/components/LoginForm.tsx:93-120 | Success clears the errors and navigates to the redirect, or to `/`. Failure stores the errors, stops loading and does not navigate. |
| Login.LoginFormState.HandleRegisterFormSubmit | apps/app/src/components/LoginForm.tsx:319-356 | Success marks the registration successful, clears the errors, navigates to the redirect and records the e-mail only under email authentication. Failure stores the errors and stops loading. A `null` response throws after clearing the e-mail, leaving loading on and the errors untouched. |

`Search.SearchPage.Search` states the following:

- The selection is reset.
- An empty keyword returns early and clears the results.
- A non-empty keyword sends a request built from the query, the limit, the offset of the old page and the sort.
- A failed request leaves the results untouched.
- Found results are stored as `StoreResults` says.
- The short-body ids are requested.

## Left out

**I/O and external services**
- HTTP requests, the database and Slack's API are not modelled: their outcomes are parameters. The relation repository's save is the `saved` flag.
- `getDistanceInMillisecondsToExpiredAt` of the relation entity is not part of this model. The distance is an input.
- Slack.Lookup: the permission maps hold their own keys only. JavaScript indexing of a plain object also finds inherited `Object.prototype` members, so a command named `toString` or `constructor` finds a function in the source. The source then treats that command as permitted, and the interaction check takes it from the single-use map without falling back to the broadcast map. The model does not capture these inherited names: for them it reports no permission.
- Search.GetQueryByLocation: the parsed query is a map of every key. In the source, assigning to `query['__proto__']` is ignored by JavaScript, while the model stores that key.
- Slack.AllowedRelationsAreGranted: the source matches ids with the regular expression `(^name$)|(^name:\w+)`, built from each command name at RelationsService.ts:132. The model states that match directly: the id equals the name, or continues with `:` and a word character. That agrees with the regular expression only when command names hold no regular-expression metacharacters, and the model assumes they do not.
- Slack.SyncRelation: the background refresh is reported as a flag rather than run, because it is a fire-and-forget promise.
- Activity: the event emitter is a pair of booleans, and the `updateByParameters` failure is a parameter.
- The MongoDB index listing and the drop and create calls are modelled as a sequence of index descriptions and a plan.
- Activity.ApplyTtlPlan: `dropIndex` and `createIndex` are assumed to succeed, and `createIndex` with an unset `expireAfterSeconds` is assumed to store an index without an expiry. Both depend on the MongoDB driver and server. A failure of either call, which the source logs and rethrows at activity.ts:121-124, is not modelled.

**Values defined outside the core**
- The supported actions, the action groups and the notified actions are defined outside the core files. They are a `Catalog` parameter.
- The delete-config validator `validateDeleteConfigs` is defined outside the core files. It is a parameter of the security model.
- `putSecuritySetting` and the container's network calls are not modelled.

**Rendering and browser APIs**
- JSX rendering, i18n (`t`, `tWithOpt`), styles and CSS modules are not modelled.
- ItemControl's plus button is not modelled.
- `window.location` and `window.history` are not modelled.
- SearchPage `changeURL` is not modelled; it only writes the browser history.
- `fetchShortBodiesMap` is modelled only by the ids it requests. The bodies are a server answer.
- The axios interceptors are not modelled.
- React's `setState` batching is not modelled: each state update takes effect at once.

**Other code outside the core**
- `rehypePluginStore` of the TOC plugin is not modelled; only the restore side is.
- `ItemNode.generateNodesFromPages` is not modelled: fetched children arrive as nodes.
- The admin users container's unused `statusList`, `inputWord`, `sort` and `sortOrder` state is not modelled.

**Modelling choices**
- AdminUsers.AdminUsersContainer: the selected-status `Set` object is modelled as a set value field that is reassigned, so aliasing of that set object is not modelled.
- RelocateToc.ReplaceOlToUl: a node's `height` is a ghost depth bound. Cyclic node graphs, which the source would loop on, are excluded by `Valid`.
- Login.Front: the external-auth map is modelled as always present. When the prop `objOfIsExternalAuthEnableds` is absent, `Object.values` throws during render; that crash is not modelled.

**Where the model follows the code rather than its evident intent**
- In `syncSupportedGrowiCommands`, the null relation is dereferenced at line 29, before the null check at line 41. The "No relation exists." error is therefore unreachable. The model returns a dereference failure.
- `getSelectedPagesToDelete` uses `find`, so a result whose id is the empty string is never a delete target.
- `deleteAllPagesButtonHandler` stores the selection object itself as the delete targets. Later ticks therefore change the pending targets (`Search.UntickAfterDeleteAllChangesTargets`).
- After a successful login or registration, `isLoading` stays true: the code only resets it on failure.
- The guard `err != null || err.length > 0` holds for every non-null error list, so a failed registration always stores the errors. A `null` rejection makes `err.length` throw, so loading is never switched off (`RegisterResponse.RejectedWithNull`).
- The external-account error is modelled as an `ErrorV3`, and the login error code as a constructor of `ErrorCode`.

## Findings

| source | as written | input that shows it | evidently intended | confidence | as-written member | corrected member |
|---|---|---|---|---|---|---|
| packages/app/src/components/SearchPage.jsx:36 | `decodeURI(q) \|\| ''` applied to a missing `q` decodes the string "undefined", which is truthy | a location without `q`, such as `/_search` | a missing `q` gives the empty keyword, so nothing is searched at mount | high, not executed | Search.InitialKeywordAsWrittenSearchesUndefined | Search.InitialKeywordWithoutQueryIsEmpty |
| packages/app/src/components/Sidebar/PageTree/Item.tsx:155-160 | the children-sync effect has an empty dependency list, so it runs only at mount, when the children and the current children are the same list | a node whose children grow after the item mounted | longer children arriving later are marked and replace the current ones | medium, not executed | PageTree.MountSyncEffectAsWritten | PageTree.ChildrenUpdateSyncs |
