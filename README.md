# yoon-chat client logic, modelled in Dafny

yoon-chat is a small chat site. Regular users talk to one owner, and the owner
sees and answers every user. The browser client is written in React and runs
over a hosted backend. This project models the client's logic and proves
properties of that model:

- **Message routing and conversation views.**
  - Who the owner is, and where `insertMessage` routes a message.
  - The owner↔user conversation filter, and the grouping of messages by author.
  - The composers' submit handlers (`MessageForm`, `useMessage`): trim, the 1..1000 bound, and the in-flight guard.
  - The per-peer counts and the select/deselect toggle of the message hook and the owner's message page.
  - The role-based choice of message source in `MessageList`.
- **Notification read-state.**
  - The backend notification table as a sequence of rows, with its eight operations.
  - The local list updates of `useNotification` and the notifications page.
  - The unread count, the `viewDetail` dispatch, and the relative-time buckets.
- **UI stores.** The modal store and the rotating header text, with timers as explicit events and time as a parameter.
- **Pure helpers.**
  - The row→entity transformers.
  - OAuth username choice and the invalid-credentials check.
  - The constants.
  - The owner dashboard's audit-log counts and the user detail filter.

How external things are represented:

- **The backend** is a sequence of rows. Each query takes the rows and a flag saying whether the call failed, or a reply value (error, null, or an id with a timestamp).
- **The configured owner id** (`VITE_OWNER_USER_ID`) is an `Option<string>`.
- **Timestamps** that are compared or subtracted are integers in milliseconds.
- **"Now"** is a parameter.
- **Asynchronous handlers** are split in two:
  - a method for the synchronous part (validation, setting `isSubmitting`);
  - a method run when the awaited call settles (`Threw` or `Returned(reply)`).

Which snapshot of the repository is followed:

- `isAdmin` is treated as `isOwner`.
- The message data layer returns flat rows (`authorId` / `recipientId`). The message list and the owner page read the author from those rows.
- The message hook works on the nested `Message` type that its (unseen) fetch returns.
- The profile picture field does not affect any property and is kept as a plain field.
- `markNotificationAsRead` updates the row with the id whether or not it was read already: a second call overwrites `read_at`.
- The owner dashboard's gate (src/pages/AdminDashboard.tsx:33-35) is the same test as the message page's. Both use `AdminMessage.Gate`.

## Model

| member | source | states |
|---|---|---|
| MessageData.GetOwnerId | src/lib/data/message.ts:7-14 | the configured owner id; "" when the variable is unset |
| MessageData.IsOwnerExactly | src/lib/data/message.ts:19-21 | with the owner unset only "" is the owner; otherwise exactly the configured id is |
| MessageData.FinalRecipient | src/lib/data/message.ts:116-132 | the owner's message goes to the recipient passed in, and is rejected when that is absent or empty; anyone else's goes to the owner |
| MessageData.RegularUserSendsToOwner | src/lib/data/message.ts:129-132 | a non-owner's recipient argument makes no difference: the message always reaches the owner |
| MessageData.OwnerNeedsRecipient | src/lib/data/message.ts:123-128 | an owner send is rejected exactly when the recipient is absent or empty; otherwise that recipient is used unchanged |
| MessageData.InsertResult | src/lib/data/message.ts:144-149 | an id is returned exactly when routing succeeds, the insert succeeds and the backend id is non-empty; it is that id |
| MessageData.MessageTable.InsertMessage | src/lib/data/message.ts:111-150 | a rejected call or a backend error leaves the table unchanged; otherwise exactly one row is appended: the author, the resolved recipient, the body untouched |
| MessageData.FetchAllMessages | src/lib/data/message.ts:27-58 | an error gives []; otherwise a permutation of the table, oldest first |
| MessageData.FetchMessagesByUserId | src/lib/data/message.ts:64-101 | an error gives []; the result is ordered oldest first |
| MessageData.ConversationExact | src/lib/data/message.ts:83-89 | a row is fetched exactly when it is in the table and goes user→owner or owner→user, and as often as the table holds it |
| MessageData.ConversationAlwaysWithOwner | src/lib/data/message.ts:83 | every fetched message has the user on one side and the owner on the other |
| MessageData.ExchangeIsVisible | src/lib/data/message.ts:64-101 | a user's message and the owner's later reply both appear in the user's conversation, earlier first, and in the owner's full list |
| MessageData.GroupByAuthor | src/lib/data/message.ts:158-165 | the keys are exactly the authors present, listed once each, in the order in which the authors first wrote; each group is its author's messages in input order; the group sizes add up to the message count |
| MessageData.FirstBy | src/lib/data/message.ts:160-163 | the position of an author's first message: it is that author's, no earlier one is, and it is past the end when there is none |
| MessageData.FirstByExtend | src/lib/data/message.ts:160-163 | a later message never moves the first message of an author who already wrote |
| MessageData.StepFirstAppearance | src/lib/data/message.ts:160-163 | filing one message, with a new author listed last, keeps the keys in order of first appearance |
| MessageData.FiledAllGroups | src/lib/data/message.ts:160-165 | filing the messages one by one, as the loop does, yields an exact grouping by author with the keys in order of first appearance |
| MessageData.FetchMessagesGroupedByUser | src/lib/data/message.ts:156-168 | an error gives no groups; otherwise one group per author in the table, each that author's messages oldest first, the authors listed in the order of their first message, with sizes summing to the table size |
| MessageForm.Validate | src/components/message/MessageForm.tsx:45-60 | a blank draft or a send in flight is ignored; otherwise the draft is refused as too long exactly when its trimmed UTF-16 length exceeds 1000, and it is sent trimmed, with length within 1..1000 |
| MessageForm.TypedDraftNeverTooLong | src/components/message/MessageForm.tsx:108 | a draft kept within `maxLength` is never refused as too long |
| MessageForm.SendEnabled | src/components/message/MessageForm.tsx:123 | the send button is enabled exactly when a submit would not be ignored |
| MessageForm.Form.Submit | src/components/message/MessageForm.tsx:42-62 | ignore: no change; too long: the alert and no submit; otherwise submitting with the trimmed text in flight |
| MessageForm.Form.KeyDown | src/components/message/MessageForm.tsx:89-94 | Enter without Shift submits; any other key changes nothing |
| MessageForm.Form.Resolve | src/components/message/MessageForm.tsx:64-85 | an id clears the draft and calls the callback once if there is one; null gives SEND_FAILED and keeps the draft; a throw gives SEND_ERROR; the form always stops submitting; the table gets the trimmed text |
| MessageForm.Form.constructor | src/components/message/MessageForm.tsx:22-28 | the props are kept; the draft starts empty, not submitting, with no alert and no callback call |
| MessageForm.Form.Edit | src/components/message/MessageForm.tsx:105-119 | typing changes the draft only while not submitting |
| UseMessage.PeerMessages | src/hooks/message/useMessage.ts:60-64 | exactly the fetched messages with the peer as author or recipient, each kept as often as it was fetched, the others dropped |
| UseMessage.PeerMessagesAppend | src/hooks/message/useMessage.ts:60-64 | the peer's messages of two fetched segments are the first segment's followed by the second's, and a single message is kept exactly when it involves the peer, so the filter keeps fetch order |
| UseMessage.FetchAllUsers | src/lib/data/user.ts:34-46 | an error gives []; never more users than rows; never the caller |
| UseMessage.FetchAllUsersExact | src/lib/data/user.ts:34-46 | without an error, a row becomes a user in the result exactly when its id is not the caller's |
| UseMessage.Toggled | src/hooks/message/useMessage.ts:69-82 | clicking the selected user clears the selection and the list; clicking anyone else selects them with their conversation |
| UseMessage.ToggleTwiceClears | src/hooks/message/useMessage.ts:70-72 | clicking the same user twice leaves nobody selected and nothing shown |
| UseMessage.ToggleSwitches | src/hooks/message/useMessage.ts:73-81 | clicking p then a different q leaves q selected with q's conversation |
| UseMessage.MessageHook.constructor | src/hooks/message/useMessage.ts:22-33 | the current user id is the signed-in id or ""; everything starts empty, not submitting |
| UseMessage.MessageHook.LoadUsers | src/hooks/message/useMessage.ts:37-42 | the owner gets every other user; anyone else gets the group roster |
| UseMessage.CountPerUser | src/hooks/message/useMessage.ts:49-55 | the `forEach` loop builds one entry per roster user, zeros included, each equal to the number of fetched messages with that user as author or recipient |
| UseMessage.MessageHook.LoadMessages | src/hooks/message/useMessage.ts:44-67 | one count per roster user, zeros included, each that user's number of messages; the selected user's conversation is refreshed, and left alone without a selection |
| UseMessage.MessageHook.ToggleSelectedUser | src/hooks/message/useMessage.ts:69-82 | the toggle over the messages loaded last |
| UseMessage.MessageHook.Submit | src/hooks/message/useMessage.ts:85-97 | a send in flight makes it return; otherwise the untrimmed draft is sent to the selected user, if any |
| UseMessage.MessageHook.Resolve | src/hooks/message/useMessage.ts:92-115 | an id clears the draft and reloads: the counts are then keyed by the roster's ids, each the number of reloaded messages with that user; null gives SEND_FAILED and a throw SEND_ERROR, both keeping the draft, the messages and the counts; the hook always stops submitting |
| UseMessage.MessageHook.Edit | src/hooks/message/useMessage.ts:26 | typing replaces the draft and nothing else |
| AdminMessage.Gate | src/pages/AdminMessage.tsx:24-26 | the page is shown exactly when someone is signed in and is the owner |
| AdminMessage.DisplayCount | src/pages/AdminMessage.tsx:98 | a user without an entry shows 0; otherwise the stored count |
| AdminMessage.AdminMessagePage.constructor | src/pages/AdminMessage.tsx:13-21 | no users, no selection, no messages, an empty count map, and loading |
| AdminMessage.AdminMessagePage.LoadUsers | src/pages/AdminMessage.tsx:32-45 | one count per roster user, the length of that user's conversation with the owner |
| AdminMessage.AdminMessagePage.ShownPane | src/pages/AdminMessage.tsx:108-150 | without a selection, the prompt to pick a user; otherwise "메시지가 없습니다." exactly for an empty conversation, else one item per message in order, marked as the owner's own exactly when its author is the signed-in owner |
| AdminMessage.AdminMessagePage.HandleUserClick | src/pages/AdminMessage.tsx:47-61 | the toggle, loading the clicked user's conversation |
| AdminMessage.AdminMessagePage.HandleMessageSent | src/pages/AdminMessage.tsx:63-72 | nothing without a selection; otherwise the conversation reloads and only the selected user's count is set, to the pre-reload length plus one |
| AdminMessage.SentCountAgrees | src/pages/AdminMessage.tsx:69 | that count equals the reloaded length when the reload is the shown list plus the one sent message |
| MessageList.Render | src/components/message/MessageList.tsx:71-86 | the placeholder exactly for an empty list; otherwise one item per message, in order, mine exactly when I wrote it |
| MessageList.OwnerSeesOwnReplies | src/components/message/MessageList.tsx:82 | in the owner's view of a user's conversation, a message is the owner's exactly when it is addressed to that user |
| MessageList.MessageListView.constructor | src/components/message/MessageList.tsx:25-27 | the viewer id is kept and the list starts empty |
| MessageList.MessageListView.Load | src/components/message/MessageList.tsx:31-43 | the owner loads every message, anyone else their conversation; the result replaces the list |
| MessageList.MessageListView.View | src/components/message/MessageList.tsx:73-76 | the placeholder is the "no messages" text and is shown exactly when the list is empty |
| MessageList.RegularViewIsOwnConversation | src/components/message/MessageList.tsx:38-39 | a regular user's list holds only messages between that user and the owner |
| NotificationData.FetchNotificationsByUserId | src/lib/data/notification.ts:16-31 | an error gives []; newest first; each of the user's rows is listed as often as the table holds it and no other row is, and the list is as long as the number of the user's rows |
| NotificationData.FetchUnreadNotifications | src/lib/data/notification.ts:38-54 | an error gives []; newest first; each of the user's unread rows is listed as often as the table holds it and no other row is, and the list is as long as the number of the user's unread rows |
| NotificationData.TransformedMultiplicity | src/lib/data/notification.ts:30 | transforming the rows keeps how often each row occurs, since distinct rows give distinct notifications |
| NotificationData.SelectMultiplicity | src/lib/data/notification.ts:19-30 | a successful filtered, ordered and transformed query holds each matching row as often as the table does, and none of the others |
| NotificationData.SelectLength | src/lib/data/notification.ts:19-30 | a successful query returns as many notifications as there are matching rows in the table |
| NotificationData.UserSelection | src/lib/data/notification.ts:19-30 | for the user's query: membership, multiplicity and length exactly those of the user's rows |
| NotificationData.GetUnreadNotificationCount | src/lib/data/notification.ts:61-76 | the length of the user's unread list; 0 on an error or a null count |
| NotificationData.MarkedRead | src/lib/data/notification.ts:86-92 | only the rows with the id become read at `now`, every other row is kept |
| NotificationData.MarkedAllRead | src/lib/data/notification.ts:110-117 | only the user's unread rows become read at `now`; read rows keep their read time; other users' rows are kept |
| NotificationData.MarkReadTwice | src/lib/data/notification.ts:88-92 | marking twice is marking once at the later time: `read_at` is overwritten |
| NotificationData.MarkAllLeavesNoUnread | src/lib/data/notification.ts:107-125 | afterwards the user has no unread row, and every other user's unread rows are the same |
| NotificationData.MarkReadNeverAddsUnread | src/lib/data/notification.ts:83-100 | marking one row never raises anyone's unread count |
| NotificationData.WithoutId | src/lib/data/notification.ts:175-177 | exactly the rows without the id remain, each as often as before, so the table loses exactly the rows with the id |
| NotificationData.WithoutRead | src/lib/data/notification.ts:194-197 | exactly the rows that are not the user's read rows remain, each as often as before, so the table loses exactly the user's read rows |
| NotificationData.WithoutIdKeepsOrder | src/lib/data/notification.ts:175-177 | deleting by id splits over concatenation and keeps exactly the rows with another id, so the surviving rows keep their order |
| NotificationData.WithoutReadKeepsOrder | src/lib/data/notification.ts:194-197 | deleting the user's read rows splits over concatenation and keeps exactly the other rows, so the surviving rows keep their order |
| NotificationData.DeleteReadKeepsUnread | src/lib/data/notification.ts:192-205 | deleting read rows keeps every user's unread rows, in order |
| NotificationData.UpdatesStayConsistent | src/lib/data/notification.ts:88-91 | every update keeps the read flag and the read time in step |
| NotificationData.NewNotificationRow | src/lib/data/notification.ts:147-154 | the inserted row: empty or absent content and related ids stored as null, unread, no read time |
| NotificationData.CreatedReadsBack | src/lib/data/notification.ts:137-164 | a created notification reads back with its type, unread |
| NotificationData.NotificationTable.MarkNotificationAsRead | src/lib/data/notification.ts:83-100 | true exactly on success; then the row is marked, otherwise the table is unchanged |
| NotificationData.NotificationTable.MarkAllNotificationsAsRead | src/lib/data/notification.ts:107-125 | true exactly on success; then the user's unread rows are marked, otherwise unchanged |
| NotificationData.NotificationTable.CreateNotification | src/lib/data/notification.ts:137-164 | an error inserts nothing and gives null; otherwise one row is appended and its id returned |
| NotificationData.NotificationTable.DeleteNotification | src/lib/data/notification.ts:171-185 | true exactly on success; then only the rows with the id are gone |
| NotificationData.NotificationTable.DeleteReadNotifications | src/lib/data/notification.ts:192-205 | true exactly on success; then only the user's read rows are gone |
| UseNotification.LocalMarkMirrorsRow | src/hooks/useNotification.ts:33-36 | the local update equals the backend update of the row, read back |
| UseNotification.MarkOneLocal | src/hooks/useNotification.ts:32-38 | only the entry with the id becomes read, with a read time; the rest are kept |
| UseNotification.MarkAllLocal | src/hooks/useNotification.ts:47-53 | every entry becomes read, its read time overwritten |
| UseNotification.UnreadCount | src/hooks/useNotification.ts:82 | exactly the number of positions holding an unread notification, so never more than the list and zero exactly when every entry is read |
| UseNotification.MarkOneLowersCount | src/hooks/useNotification.ts:29-40 | marking one lowers the count by the number of unread entries with that id |
| UseNotification.MarkAllClearsCount | src/hooks/useNotification.ts:42-55 | after marking all, the unread count is zero |
| UseNotification.DetailActionFor | src/hooks/useNotification.ts:57-80 | nothing without a related message; a message kind marks read and opens that message; any other kind only marks read |
| UseNotification.NotificationHook.constructor | src/hooks/useNotification.ts:11-13 | the user id and the shared modal store are kept; the list starts empty with no message target |
| UseNotification.NotificationHook.LoadNotifications | src/hooks/useNotification.ts:22-27 | nothing without a user; otherwise the user's notifications replace the list |
| UseNotification.NotificationHook.MarkAsRead | src/hooks/useNotification.ts:29-40 | the local list changes only after backend success, and only at that id |
| UseNotification.NotificationHook.MarkAllAsRead | src/hooks/useNotification.ts:42-55 | no-op without a user; on success every local entry is read |
| UseNotification.NotificationHook.ViewDetail | src/hooks/useNotification.ts:57-80 | no related message: nothing at all; a message kind: mark read, set the target, open the message modal; otherwise only mark read |
| NotificationsPage.AgeOf | src/pages/Notifications.tsx:58-69 | the floor-division buckets: under a minute, minutes, hours, days under a week, older; each count is the floor of the difference |
| NotificationsPage.HoursAreNestedFloor | src/pages/Notifications.tsx:62-63 | flooring minutes then dividing by 60 is flooring the hours |
| NotificationsPage.DaysAreNestedFloor | src/pages/Notifications.tsx:62-64 | flooring three times is flooring the days |
| NotificationsPage.AgeBoundaries | src/pages/Notifications.tsx:66-69 | each bucket starts exactly at its bound: 1 min, 1 h, 1 day, 7 days |
| NotificationsPage.AgeLabel | src/pages/Notifications.tsx:66-76 | "방금 전" for under a minute; for the minute, hour and day buckets the bucket's count in decimal, read back as that count, followed by "분 전", "시간 전" or "일 전"; no relative label exactly for the oldest bucket, which is formatted by locale |
| NotificationsPage.CountLabelShows | src/pages/Notifications.tsx:67-69 | a count rendered by the template and followed by its unit text reads back as that count and that unit |
| JsString.NatToDecimal | src/pages/Notifications.tsx:67-69 | the template rendering of a count is a non-empty run of decimal digits with a leading zero only for zero |
| JsString.NatToDecimalValue | src/pages/Notifications.tsx:67-69 | reading the rendered digits back as a decimal number gives the count |
| NotificationsPage.Page.constructor | src/pages/Notifications.tsx:12-15 | the user id is kept; the list starts empty and the page loading |
| NotificationsPage.Page.LoadNotifications | src/pages/Notifications.tsx:17-24 | without a user nothing changes; otherwise the list is loaded and loading ends |
| NotificationsPage.Page.HandleMarkAsRead | src/pages/Notifications.tsx:30-41 | only the matching entry, and only after backend success |
| NotificationsPage.Page.HandleMarkAllAsRead | src/pages/Notifications.tsx:43-56 | no-op without a user; on success every entry is read |
| NotificationsPage.Page.CardClick | src/pages/Notifications.tsx:128-131 | marks read only an unread entry |
| NotificationsPage.Page.ShowMarkAll | src/pages/Notifications.tsx:100 | the mark-all button shows exactly when some entry is unread |
| ModalStore.With | src/stores/modalStore.ts:26-28 | sets one modal's state, leaving the other two as they were |
| ModalStore.OpenModal | src/stores/modalStore.ts:24-30 | opens one modal, keeps its minimised flag, leaves the others |
| ModalStore.CloseModal | src/stores/modalStore.ts:31-37 | closes one modal and clears its minimised flag, leaves the others |
| ModalStore.ToggleMinimize | src/stores/modalStore.ts:38-47 | flips only that modal's minimised flag |
| ModalStore.SetMinimized | src/stores/modalStore.ts:48-54 | sets only that modal's minimised flag, keeps whether it is open |
| ModalStore.OpenIdempotent | src/stores/modalStore.ts:24-30 | opening twice is opening once |
| ModalStore.ToggleTwice | src/stores/modalStore.ts:38-47 | toggling twice restores the record |
| ModalStore.SetMinimizedIdempotent | src/stores/modalStore.ts:48-54 | setting the flag twice is setting it once |
| ModalStore.ReopenAfterClose | src/stores/modalStore.ts:31-37 | a closed and reopened modal is open and not minimised |
| ModalStore.Store.constructor | src/stores/modalStore.ts:19-23 | all three modals start closed and not minimised |
| ModalStore.Store.Open | src/stores/modalStore.ts:24-30 | the record becomes the opened record |
| ModalStore.Store.Close | src/stores/modalStore.ts:31-37 | the record becomes the closed record |
| ModalStore.Store.Toggle | src/stores/modalStore.ts:38-47 | the record becomes the toggled record |
| ModalStore.Store.SetMinimizedFlag | src/stores/modalStore.ts:48-54 | the record becomes the one with the flag set |
| HeaderStore.RotationIndex | src/stores/headerStore.ts:30 | the rotation index always names one of the six default texts |
| HeaderStore.RotationAdvances | src/stores/headerStore.ts:30 | ten seconds later the index moves to the next text, round the six |
| HeaderStore.Initial | src/stores/headerStore.ts:45-49 | no text, key 0, the index and the default shown taken from the clock |
| HeaderStore.InitialCoherent | src/stores/headerStore.ts:47-48 | two clock readings in the same ten-second window show the text the index names |
| HeaderStore.InitialAcrossBoundary | src/stores/headerStore.ts:47-48 | readings on either side of a window boundary show a text the index does not name, until the next change of window repairs it |
| HeaderStore.SetText | src/stores/headerStore.ts:51-78 | a non-empty text is shown and a revert is due 3 s later; null or "" shows the current default and cancels any revert; the key goes up by one |
| HeaderStore.Fire | src/stores/headerStore.ts:63-70 | a revert that is due clears the text, shows the default and bumps the key; otherwise nothing |
| HeaderStore.Tick | src/stores/headerStore.ts:29-40 | a new index with no text set shows its default and bumps the key; otherwise nothing |
| HeaderStore.StepsKeepCoherent | src/stores/headerStore.ts:29-78 | every step keeps the shown text equal to the set text or to the index's default |
| HeaderStore.KeyCountsTransitions | src/stores/headerStore.ts:37 | every step either changes nothing or raises the key by exactly one |
| HeaderStore.TextShownForThreeSeconds | src/stores/headerStore.ts:56-70 | a set text stays shown, whatever a rotation tick does, until 3 s have passed; then the revert clears it and shows the default |
| HeaderStore.Store.constructor | src/stores/headerStore.ts:45-49 | the store starts in the initial state |
| HeaderStore.Store.SetTextAt | src/stores/headerStore.ts:51-78 | the state becomes `SetText` of the old state |
| HeaderStore.Store.FireAt | src/stores/headerStore.ts:63-70 | the state becomes `Fire` of the old state |
| HeaderStore.Store.TickAt | src/stores/headerStore.ts:29-40 | the state becomes `Tick` of the old state |
| Transformers.TransformMessageViewRow | src/lib/transformers.ts:20-36 | the row is recovered from the message: nothing is lost or changed |
| Transformers.MessageViewRowBijective | src/lib/transformers.ts:20-36 | the transform is one-to-one and inverts the row encoding |
| Transformers.TransformMessageViewRows | src/lib/transformers.ts:41-43 | same length and order, each row transformed |
| Transformers.TransformUserRow | src/lib/transformers.ts:49-59 | the row is recovered from the user |
| Transformers.UserRowBijective | src/lib/transformers.ts:49-59 | the transform is one-to-one and inverts the row encoding |
| Transformers.TransformUserRows | src/lib/transformers.ts:64-66 | same length and order, each row transformed |
| Transformers.TransformNotificationRow | src/lib/transformers.ts:72-85 | the row, nullable fields included, is recovered from the notification |
| Transformers.NotificationRowBijective | src/lib/transformers.ts:72-85 | the transform is one-to-one and inverts the row encoding |
| Transformers.TransformNotificationRows | src/lib/transformers.ts:90-94 | same length and order, each row transformed |
| Types.AsNotificationType | src/types/notification.ts:31-35 | the type string is kept; it is unlisted exactly when it is none of the four names |
| Types.TypeNameRoundTrip | src/types/notification.ts:31-35 | each listed type survives being written as a string and read back |
| AuthUtils.GenerateUsernameFromOAuthUser | src/lib/utils/auth.ts:12-35 | full name, else name, else the email's part before the first "@", else "User"; never empty |
| AuthUtils.EmailPrefixUnique | src/lib/utils/auth.ts:27 | the email-derived name is the longest "@"-free prefix of the email |
| AuthUtils.IsInvalidCredentialsError | src/lib/utils/auth.ts:40-42 | true exactly when the message contains "Invalid login credentials" somewhere |
| Constants.CalculateMinutesToMs | src/lib/constants.ts:12 | a whole number of minutes: dividing by 60000 gives the minutes back with no remainder |
| Constants.ConstantsAgree | src/lib/constants.ts:7-22 | the message poll is 3 minutes, the notification poll 30 s, min ≤ max length, and the two group ids are both "0" |
| JsString.TrimEmptyIffBlank | src/components/message/MessageForm.tsx:45-48 | a draft trims to "" exactly when it is all whitespace |
| JsString.TrimShortens | src/components/message/MessageForm.tsx:45 | trimming never lengthens a string |
| Wrappers.NullIfEmpty | src/lib/data/notification.ts:151-153 | `x \|\| null`: present exactly when non-empty |
| AdminDashboard.GetUserLoginCount | src/pages/AdminDashboard.tsx:49-55 | exactly the number of log positions holding a sign-in of the user, so never more than the log holds and zero exactly when the user has no sign-in entry |
| AdminDashboard.LoginLogs | src/pages/AdminDashboard.tsx:50-53 | exactly the sign-in entries naming the user as subject or actor, each kept as often as it occurs in the log, the others dropped |
| AdminDashboard.LoginLogsAppend | src/pages/AdminDashboard.tsx:50-53 | the sign-ins of two log segments are the first segment's followed by the second's, and a single entry is kept exactly when it is a sign-in of the user, so the filter keeps log order |
| AdminDashboard.GetLastLoginDate | src/pages/AdminDashboard.tsx:57-64 | null exactly when the count is zero; otherwise the time of the first sign-in entry in log order |
| AdminDashboard.LastLoginIsLatest | src/lib/data/userActivity.ts:28 | with the log newest first, that time is the latest of the user's sign-ins |
| AdminDashboard.Dashboard.constructor | src/pages/AdminDashboard.tsx:21-26 | no users, no audit log, no selection, and loading |
| AdminDashboard.Dashboard.LoadUsers | src/pages/AdminDashboard.tsx:37-43 | users and logs replaced, loading over, the selection kept |
| AdminDashboard.Dashboard.HandleUserClick | src/pages/AdminDashboard.tsx:45-47 | the clicked user becomes the selection |
| AdminDashboard.Dashboard.CloseDetail | src/pages/AdminDashboard.tsx:164 | closing the details clears the selection |
| UserDetailModal.UserLogs | src/components/admin/UserDetailModal.tsx:31-34 | exactly the entries naming the user as subject or actor, whatever their action, each kept as often as it occurs in the log; their number is the number of log positions concerning the user |
| UserDetailModal.UserLogsAppend | src/components/admin/UserDetailModal.tsx:31-34 | the entries of two log segments are the first segment's followed by the second's, and a single entry is kept exactly when it concerns the user, so the filter keeps log order |
| UserDetailModal.TotalEventsCoverLogins | src/components/admin/UserDetailModal.tsx:91 | the event total is never less than the dashboard's login count |
| UserDetailModal.LoginsAmongUserLogs | src/components/admin/UserDetailModal.tsx:31-34 | the user's sign-ins are the same whether taken from the whole log or the user's entries |
| UserDetailModal.Detail.constructor | src/components/admin/UserDetailModal.tsx:22-27 | the user is kept and the user's entries start empty |
| UserDetailModal.Detail.Refilter | src/components/admin/UserDetailModal.tsx:29-36 | the shown entries become the user's entries of the log |
| UserDetailModal.Detail.Section | src/components/admin/UserDetailModal.tsx:90-95 | the total line shows the list's length in every case, zero included; "No authentication logs found." exactly for an empty list, otherwise the entries themselves |

## Left out

- Polling timers (`setInterval` in the message and notification views, `useUnreadNotifications`): each reload is one explicit step.
- Async races and last-write-wins between overlapping reloads are not modelled.
- Stale closures are not modelled: `useMessage`'s `loadMessages` is taken to see the current `users` and `selectedUser`.
- DOM effects are not modelled: scrolling, textarea resizing, focus, `requestAnimationFrame`, page reloads.
- Locale date formatting (`toLocaleString`, `toLocaleDateString`) is not modelled; notifications older than a week get no label here.
- The joined `username` / `profile_pic` columns of the message queries are not modelled, because no property depends on them.
- `isAdmin` (src/utils/user.ts) is not part of this model; it is taken to be `isOwner`.
- `validateMessage` (src/utils/message.ts) is not part of this model. `useMessage` ignores its result, so it has no effect on the state.
- `fetchAllMessagesByUserId` is not part of this model: `UseMessage.MessageHook.LoadMessages` takes its result as a parameter.
- `fetchUsersByGroup` is a server-side procedure whose roster is a parameter, for both the message hook and the owner's message page. Its call on the owner page also passes its arguments in a skewed order.
- `setTarget` and `useModal` are not part of the modal store as it is modelled. The target `viewDetail` sets is recorded in `UseNotification.NotificationHook.messageTarget`.
- `useAdminMessage` is not part of this model.
- The auth session plumbing (auth store, providers, login page) is not modelled; it only calls the auth backend.
- The presentation components, routes and type-only files are not modelled, except where they shape the datatypes.
- `getUser` and the other user queries are not modelled; only `fetchAllUsers` is used by the modelled core.
- The 1000-row limit of the audit-log query (src/lib/data/userActivity.ts:29) is not modelled; the log is whatever the query returned.
- Timestamps are integers here, while the source passes ISO strings and compares the dates they denote. The source's `created_at` strings order as the integers here do.
- The local read times in `useNotification` and the notifications page come from a second `new Date()` reading, separate from the one the data function writes into `read_at`.
- NotificationsPage.Page.LoadNotifications: without a signed-in user the page stays in its loading state forever, as the source does; this is kept, not corrected.
- AdminMessage.AdminMessagePage.HandleMessageSent: the count it stores is the pre-reload length plus one, as in the source, not the reloaded length; `AdminMessage.SentCountAgrees` says when the two coincide.
- NotificationData.NewNotificationRow: `createNotification` does not send `is_read` or `read_at`; the model takes the table's column defaults to be `is_read = false` and `read_at = null`. The table definition is not part of this model.
- Constants.CalculateMinutesToMs: models whole minutes only (`int`); a fractional number of minutes, which the source accepts, is not modelled.
- MessageData.FetchMessagesByUserId: its own contract states only the error case and the order; the exact membership and multiplicity are stated separately by `MessageData.ConversationExact`.
