# Network page and post card of a social-network client, in Dafny

The client keeps all of its data in a hosted database and holds only view
state of its own. Two parts of it have behaviour worth stating:

* **The network page.** The `connections` table holds directed rows
  `user_id -> connected_user_id`. Each row has a status: pending, accepted or
  rejected. The page derives three lists from this table and the `profiles`
  table: *suggestions*, *connections* and *requests*. It changes the table
  in three ways:
  * *connect* inserts one pending row;
  * *accept* marks the request accepted, then inserts an accepted row in the
    other direction;
  * *reject* marks the request rejected.

  After each change the page reloads one of the lists.
* **The post card.** It shows how long ago a post was made ("Just now",
  "5m ago", "3h ago", "2d ago", or a calendar date). It keeps a liked flag
  and a like counter, and a comments list with a comment draft.

The model holds the store's tables as in-memory sequences. Each store call
takes an explicit success flag. A failed call throws in the client, so the
rest of the handler does not run and the view keeps its earlier value.

Files:

* `common.dfy` (module `Common`): an optional value, the user id, and an
  order-preserving `Filter` with a subsequence predicate and laws.
* `network_views.dfy` (module `NetworkViews`): rows, profiles and statuses.
  The three derived lists as pure functions. The store's status update.
* `network_laws.dfy` (module `NetworkLaws`): what connect, accept and reject
  do to the derived lists.
* `network_page.dfy` (module `Network`): class `NetworkPage`. It holds the
  tables and the three lists. Its methods are the page's load and mutation
  handlers.
* `relative_time.dfy` (module `RelativeTime`): `formatDate` as a bucketing
  function plus a renderer. Also a parser that reads the relative texts back.
* `text_trim.dfy` (module `JsText`): `String.prototype.trim`, used for the
  blank-draft check.
* `post_card.dfy` (module `Posts`): class `PostCard` with the like toggle and
  the comment handlers.

## Model

| member | source | states |
|---|---|---|
| `Common.Filter` | NetworkPage.tsx:57 | The result holds exactly the elements that pass the test, each as many times as it occurs in the input, and it is a subsequence of the input, so order is kept |
| `NetworkViews.OutgoingTargets` | NetworkPage.tsx:49-56 | An id is in the set iff some row goes from the user to it, whatever that row's status |
| `NetworkViews.Suggestions` | NetworkPage.tsx:39-60 | Never contains the user. A profile is suggested iff it is in the table, is not the user, and no row of any status goes from the user to it. Each suggested profile occurs as often as in the table. The result is a subsequence of the profile table |
| `NetworkViews.AcceptedTargets` | NetworkPage.tsx:65-73 | An id is listed iff an accepted row goes from the user to it. The list is empty iff there is no accepted outgoing row |
| `NetworkViews.ProfilesWithIds` | NetworkPage.tsx:80-83 | Exactly the profiles whose id is among the given ids, each as often as in the table, in table order |
| `NetworkViews.Connections` | NetworkPage.tsx:62-88 | A profile is listed iff an accepted row goes from the user to it, each as often as in the table. The result is a subsequence of the profile table |
| `NetworkViews.Requests` | NetworkPage.tsx:90-101 | Exactly the rows addressed to the user that are pending, each as often as in the table, in table order |
| `NetworkViews.SetStatus` | NetworkPage.tsx:164-167 | The table keeps its length, and each row keeps its id and both ends. Rows with the given id take the new status; all other rows keep theirs |
| `NetworkViews.PendingBetween` | NetworkPage.tsx:109-117 | Exactly the pending rows from one user to another, each as often as in the table |
| `NetworkLaws.OutgoingAfterAppend` | NetworkPage.tsx:49-56 | Appending a row from the user adds exactly its target to the user's outgoing targets |
| `NetworkLaws.ConnectRemovesTarget` | NetworkPage.tsx:104-121 | After a pending row to the target is appended, the suggestions are the old ones minus the target, in the same order. The target is never suggested |
| `NetworkLaws.ConnectTwiceAddsTwoPending` | NetworkPage.tsx:109-117 | There is no duplicate check: connecting twice adds two pending rows between the same pair |
| `NetworkLaws.StatusChangeKeepsSuggestions` | NetworkPage.tsx:49-57 | Changing any row's status leaves the suggestions unchanged |
| `NetworkLaws.ClosingRemovesRequest` | NetworkPage.tsx:161-171 | Moving a row to accepted or rejected removes exactly the rows with that id from the requests. The others stay, in order |
| `NetworkLaws.AcceptMakesMutual` | NetworkPage.tsx:129-151 | When both writes succeed, accepted rows exist in both directions. The request leaves the requests list |
| `NetworkLaws.StatusChangeTouchesOneRow` | NetworkPage.tsx:134-137 | When ids are distinct, a status update by id leaves at least one of any two rows exactly as it was, so at most one row changes |
| `NetworkLaws.AcceptHalfDoneIsOneSided` | NetworkPage.tsx:134-151 | When only the update succeeds, the requester has an accepted row to the user. The user has one back only if it already existed |
| `Network.NetworkPage.constructor` | NetworkPage.tsx:10-12 | The page starts with empty suggestions, connections and requests lists over the given tables, and ids are distinct |
| `Network.NetworkPage.InsertRow` | NetworkPage.tsx:109-117 | On success one row is appended with a fresh id; on failure nothing changes. Ids stay distinct |
| `Network.NetworkPage.UpdateStatus` | NetworkPage.tsx:164-167 | On success the table becomes `SetStatus` of the old table; on failure nothing changes |
| `Network.NetworkPage.LoadSuggestions` | NetworkPage.tsx:39-60 | Without a user, or if either query fails, the list is unchanged. Otherwise it becomes `Suggestions` of the current tables |
| `Network.NetworkPage.LoadConnections` | NetworkPage.tsx:62-88 | The profile lookup is made iff there is a user, the first query succeeds and an accepted outgoing row exists. With no such row the list becomes empty, whatever the profile store would answer |
| `Network.NetworkPage.LoadRequests` | NetworkPage.tsx:90-102 | With a user and a successful query the list becomes `Requests` of the table. Otherwise it is unchanged |
| `Network.NetworkPage.Connect` | NetworkPage.tsx:104-127 | Without a user nothing changes, the id counter included. A failed insert changes nothing. Otherwise exactly one pending row is appended with the next id, the counter moves on by one, and old rows are untouched. After a successful reload the target is absent from the suggestions |
| `Network.NetworkPage.Accept` | NetworkPage.tsx:129-159 | A failed update changes nothing. A failed insert leaves only the status change. At most one existing row changes. Full success appends one accepted reciprocal row with the next id and moves the counter on by one, and after the reload the request is gone from the requests list |
| `Network.NetworkPage.Reject` | NetworkPage.tsx:161-177 | Only the status of the row with that id changes, to rejected, so at most one row changes, and no row is added, even without a signed-in user. After a successful reload the row is not in the requests list |
| `RelativeTime.Bucket` | PostCard.tsx:103-111 | Exactly one outcome applies, each on its own range of differences. A difference under a minute, including any negative one, is "just now". Each count is the number of whole units elapsed and lies within the bucket's bounds |
| `RelativeTime.FormatDate` | PostCard.tsx:100-113 | The five branches: "Just now" under a minute, then `<n>m ago`, `<n>h ago` and `<n>d ago` with the floored count. From seven days on, the locale date |
| `RelativeTime.NatToDecimal` | PostCard.tsx:109 | Produces a non-empty string of decimal digits with no leading zero |
| `RelativeTime.DecimalRoundTrip` | PostCard.tsx:109 | Reading back the digits of `n` gives `n` |
| `RelativeTime.RenderParseRoundTrip` | PostCard.tsx:108-111 | Every relative text reads back as the outcome it came from |
| `RelativeTime.FormatDateDistinguishes` | PostCard.tsx:108-111 | Two differences under a week give the same text only when they fall in the same bucket |
| `RelativeTime.BucketMonotone` | PostCard.tsx:104-111 | A larger difference never shows as more recent |
| `RelativeTime.FormatDateExamples` | PostCard.tsx:103-112 | 30 s gives "Just now", 5 min "5m ago", 3 h "3h ago", 2 d "2d ago" and 10 d the locale date. A time 2 minutes in the future gives "Just now" |
| `JsText.TrimStart` | PostCard.tsx:70 | Removes a leading run of white space only, and leaves a result that is empty or starts with a non-space |
| `JsText.TrimEnd` | PostCard.tsx:70 | Removes a trailing run of white space only, and leaves a result that is empty or ends with a non-space |
| `JsText.Trim` | PostCard.tsx:70 | The result is the piece of the draft that starts at its first non-space character. It has no space at either end, and everything after it is space |
| `JsText.BlankIffAllSpace` | PostCard.tsx:70 | A draft is blank after trimming iff every character is white space |
| `JsText.TrimIdempotent` | PostCard.tsx:79 | Trimming twice gives the same as trimming once |
| `Posts.Toggled` | PostCard.tsx:44-62 | The flag flips and the counter moves one step in the same direction, so the likes of other users are kept |
| `Posts.ToggleTwiceRestores` | PostCard.tsx:44-62 | Two successful toggles restore both the flag and the counter |
| `Posts.AfterLoad` | PostCard.tsx:20-32 | A non-empty list is kept as it is. An empty list takes the store's comments on success and stays empty on failure |
| `Posts.PostCard.constructor` | PostCard.tsx:13-18 | The card starts not liked, with the counter at the post's like count, the panel closed, an empty comment list and an empty draft |
| `Posts.PostCard.LoadComments` | PostCard.tsx:20-38 | The list becomes `AfterLoad` of the old list and the stored comments |
| `Posts.PostCard.ToggleComments` | PostCard.tsx:93-98 | The panel flag flips. Opening the panel loads the comments |
| `Posts.PostCard.HandleLike` | PostCard.tsx:40-67 | Without a user, or on a failed store call, the flag and counter are unchanged. Otherwise they toggle. The counter always equals the initial count plus the user's own like |
| `Posts.PostCard.HandleComment` | PostCard.tsx:69-91 | With no user or a blank draft nothing changes. On a successful insert the trimmed draft is stored and the draft is cleared. The list is then reloaded through `loadComments`' guard |
| `Posts.PostedCommentHiddenWhenLoaded` | PostCard.tsx:85-86 | For every non-empty list that does not yet hold the posted comment, reloading through the guard leaves it out, whatever the store holds and whether or not the fetch succeeds |
| `Posts.AfterRefresh` | PostCard.tsx:85-86 | A reload without the guard takes the store's comments on success and keeps the list on failure |
| `Posts.PostedCommentShownAfterRefresh` | PostCard.tsx:85-86 | With a reload without the guard, the posted comment is in the list |
| `Posts.PostCard.HandleCommentAndRefresh` | PostCard.tsx:69-91 | Same as `HandleComment`, but the reload has no guard. After a full success the posted comment is in the list |

## Left out

- Query building and the asynchronous round trips to the hosted database. Only their effect on in-memory tables is modelled, and each call's outcome is a boolean parameter.
- Connection ids: the database generates them. Here they come from a counter (`nextId`). The only property used is that ids are distinct.
- The requester profile joined onto each request row (`profiles(*)` in `loadRequests`). Also the rendering step that skips requests without one. `Requests` returns the rows only.
- `loadData`'s choice of which list to load for the active tab, the `useEffect` reload triggers, the loading flags, and all rendering. This includes the status-to-button mapping of the connection card. All of it is presentation.
- Date parsing, the clock, and `toLocaleDateString`. They depend on the locale and the runtime. `FormatDate` takes the millisecond difference as an integer and the calendar text as a parameter. An unparsable date, which gives NaN in the client, is not modelled.
- The `likes` table. `isLiked` is never read back from the store; the card starts at "not liked" and changes only on its own successful calls. So the table's contents never affect the card and are not held.
- The `onUpdate` callback to the feed page, which reloads the post list. It is the parent's code.
- The query that fetches comments: filtering by post and ordering by creation time. `storedComments` stands for its answer, oldest first.
- Concurrent or interleaved handler calls, such as a double click issuing two inserts. Every method here runs to completion before the next starts.
- The session provider. The signed-in user is an `Option<UserId>` parameter.
- The navigation bar, profile header, post composer, feed page, profile page and app shell. They are rendering and passthrough inserts and updates.
- `NetworkLaws.AcceptMakesMutual` proves that accepted rows exist in both directions. It does not prove there are exactly two. The code never looks for rows that already exist, so accepting again, or accepting when a reciprocal row already exists, leaves more than two.
- The order of the store's answers. The profile queries of `loadSuggestions` and `loadConnections` ask for no ordering, so the store may return rows in any order. The model takes one `profiles` sequence as the answer to both, and "in table order" in `Suggestions`, `ProfilesWithIds` and `Connections` means the order of that sequence.
- After each mutation the code reloads one list only: the suggestions after connect, the requests after accept and reject. The other lists stay as they were, and the model keeps them that way.

## Findings

| source | as written | input that shows it | evidently intended | confidence | as-written member | corrected member |
|---|---|---|---|---|---|---|
| PostCard.tsx:85-86 | After a successful insert, `handleComment` reloads by calling `loadComments`. That function returns at once when the list is non-empty (PostCard.tsx:21). | The list already holds one comment `c0`. The user posts `c`. The store then holds `[c0, c]`, but the list stays `[c0]`. | The posted comment appears in the list. | medium, not executed | `Posts.PostedCommentHiddenWhenLoaded` | `Posts.PostCard.HandleCommentAndRefresh` |
