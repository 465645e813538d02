# Blog record lifecycle — a Dafny model

This project models the record lifecycle of a small single-user blog admin UI that keeps all its
posts in the browser's local storage. The persisted entry holds the whole collection. Reading it
(`getBlogs`) purges soft-deleted posts whose seven-day retention window has passed and writes the
purged list back. Saving (`saveBlogs`) overwrites the entry. The pages compose these two calls:

- the list page filters by title text and status, shows five posts per page and soft-deletes;
- the create page appends a new post;
- the edit page merges form fields into the post with the route id.

Small pure helpers round it off: the image validator, the pager's page count and buttons, and the
blog card's description truncation, id badge and purge-date notice.

Modules follow the source files:

| module | file | source |
|---|---|---|
| `BlogTypes` | blog.dfy | src/types/blog.ts, plus the id-keyed `map`/`find` the pages share |
| `Storage` | local_storage.dfy | src/utils/localStorage.ts |
| `Blogs` | blogs_page.dfy | src/pages/Blogs.tsx |
| `CreateBlog` | create_blog.dfy | src/pages/CreateBlog.tsx |
| `EditBlog` | edit_blog.dfy | src/pages/EditBlog.tsx |
| `Validators` | validators.dfy | src/utils/validators.ts |
| `Pagination` | pagination.dfy | src/components/common/Pagination.tsx |
| `BlogCard` | blog_card.dfy | src/components/blog/BlogCard.tsx |
| `Lifecycle` | lifecycle.dfy | a client composing create, soft delete and reads |
| `Wrappers`, `Seqs`, `Text` | wrappers.dfy, seqs.dfy, text.dfy | `Option`; `Array.filter` and `Array.slice`; ASCII `toLowerCase` and `includes` |

The record type `BlogTypes.Blog` follows the interface field by field. `image` and `deletedAt`
are `Option`s, the interface's optional fields. Every other field, `isDeleted` included, is
required by its type. `BlogStatus` has exactly the two constructors `Draft` and `Published`.

Timestamps are integer milliseconds since the epoch. The clock and the id generator are
parameters (`now`, `newId`). The storage entry is the field `BlogStore.stored`, which is `None`
while the key has never been written. The list and edit pages are classes over the store;
the create page's handler is a method taking the store. `Blogs.BlogsView` holds the `blogs`, `search`, `status` and `page` state. `EditBlog.EditView`
holds the found `blog`.

The purge test is written the source's way: a real quotient of elapsed milliseconds by a day,
compared with 7. The contract of `Storage.Retained` states that this is the integer test
`now - deletedAt < 7 * 86400000`.

Behaviour of the code worth noting:
- Soft-deleting a record a second time overwrites `deletedAt` with the new time
  (src/pages/Blogs.tsx:26); the first time is not kept (`Blogs.MarkDeletedRepeat`).
- A missing key (or an empty stored value) reads as the empty collection (src/utils/localStorage.ts:8). A malformed
  stored value makes `JSON.parse` throw; it is not read as empty.
- `publishDate` is a required string (src/types/blog.ts:11).

## Model

| member | source | states |
|---|---|---|
| `BlogTypes.StatusName` | src/types/blog.ts:1 | a status is stored as one of exactly two strings, "draft" or "published" |
| `BlogTypes.ParseStatus` | src/types/blog.ts:1 | a string names a status exactly when it is "draft" or "published" |
| `BlogTypes.ParseStatusName` | src/types/blog.ts:1 | reading back a stored status name gives the same status |
| `BlogTypes.UpdateById` | src/pages/Blogs.tsx:25-27 | the id-keyed map keeps the length; a record with the id becomes `f` of itself, every other record is unchanged |
| `BlogTypes.UpdateByIdKeepsIds` | src/pages/EditBlog.tsx:24 | an update that keeps each record's id keeps the id sequence in order, so unique ids stay unique |
| `BlogTypes.FindById` | src/pages/EditBlog.tsx:15 | `find` by id gives nothing exactly when no record has the id; otherwise it gives a member with the id, and no earlier record has the id |
| `BlogTypes.FindByIdUnique` | src/pages/EditBlog.tsx:15 | with unique ids, the record found is the one record with that id |
| `Storage.Retained` | src/utils/localStorage.ts:4-16 | the per-record purge test keeps a live record; it keeps a deleted one exactly when `deletedAt` is present and less than 7 days of milliseconds have passed, the real day quotient agreeing with the integer comparison |
| `Seqs.Filter` | src/utils/localStorage.ts:12-17 | `Array.filter` keeps at most the elements it is given; an element is in the result exactly when it is in the input and passes the predicate |
| `Seqs.Slice` | src/pages/Blogs.tsx:22 | `Array.slice` never fails; within bounds it is the plain slice, and it is empty when the start is at or past the end |
| `Storage.Purge` | src/utils/localStorage.ts:12-17 | the purged list is never longer than the stored one; a record is in it exactly when it is stored and passes the purge test |
| `Storage.PurgeKeepsLive` | src/utils/localStorage.ts:13 | a record with `isDeleted=false` survives every purge, whatever its `deletedAt` |
| `Storage.PurgeDropsUndated` | src/utils/localStorage.ts:14 | a deleted record without `deletedAt` is always dropped |
| `Storage.PurgeThreshold` | src/utils/localStorage.ts:4-16 | a dated deleted record is kept exactly when `now - deletedAt < 7*86400000`; exactly 7 days or more is dropped, a future `deletedAt` is kept |
| `Storage.PurgeIsSubsequence` | src/utils/localStorage.ts:12 | the purged list is an order-preserving subsequence of the stored list |
| `Storage.PurgeIdempotent` | src/utils/localStorage.ts:12-21 | purging again at the same instant changes nothing |
| `Storage.RetainedMonotone` | src/utils/localStorage.ts:15-16 | a record kept at a later instant was kept at every earlier one, so a purged record never reappears |
| `Storage.PurgeKeepsUniqueIds` | src/utils/localStorage.ts:12 | purging a collection with unique ids leaves unique ids |
| `Storage.PurgeKeepsConsistency` | src/utils/localStorage.ts:12 | purging keeps the invariant "`deletedAt` present exactly when deleted" on every surviving record |
| `Storage.BlogStore.constructor` | src/utils/localStorage.ts:8 | a store starts from a given entry, or from a missing key |
| `Storage.BlogStore.Raw` | src/utils/localStorage.ts:8 | a missing key reads as the empty collection; otherwise the stored list is read back |
| `Storage.BlogStore.GetBlogs` | src/utils/localStorage.ts:7-22 | returns the purge of what was stored at `now`, and storage afterwards holds exactly the returned list |
| `Storage.BlogStore.SaveBlogs` | src/utils/localStorage.ts:25-27 | storage afterwards holds exactly the given list, with no merge or validation |
| `Storage.GetBlogsTwice` | src/utils/localStorage.ts:7-22 | two reads at the same instant return the same list, and storage holds that list |
| `Text.Lower` | src/pages/Blogs.tsx:18 | lower-casing keeps the length and maps each character on its own, ASCII capitals to small letters |
| `Text.LowerIdempotent` | src/pages/Blogs.tsx:18 | lower-casing twice is lower-casing once |
| `Text.Contains` | src/pages/Blogs.tsx:18 | a string includes a needle only if the needle is no longer and each of its characters occurs in the string |
| `Text.ContainsEmpty` | src/pages/Blogs.tsx:18 | every title includes the empty search text |
| `Blogs.Matches` | src/pages/Blogs.tsx:16-20 | a deleted record never matches; a chosen status is the name of the record's status; with empty search and status exactly the live records match |
| `Blogs.Listed` | src/pages/Blogs.tsx:16-20 | a record is listed exactly when it is loaded, not deleted, its lower-cased title includes the lower-cased search, and it has the status if one is chosen |
| `Blogs.ListedRecords` | src/pages/Blogs.tsx:17-19 | no listed record is deleted; each one's title matches the search case-insensitively and has the chosen status |
| `Blogs.ListedUnfiltered` | src/pages/Blogs.tsx:16-20 | with empty search and empty status the listing is exactly the non-deleted records in original order |
| `Blogs.ListedIsSubsequence` | src/pages/Blogs.tsx:16 | the listing is an order-preserving subsequence of the loaded records |
| `Blogs.ListedCaseInsensitive` | src/pages/Blogs.tsx:18 | searching for the lower-cased text lists the same records |
| `Blogs.ListedUnknownStatus` | src/pages/Blogs.tsx:19 | a non-empty status string that names no status lists nothing |
| `Blogs.PageSlice` | src/pages/Blogs.tsx:22 | the page slice never fails, is no longer than the list, and holds only records of the list |
| `Blogs.PageSliceWindow` | src/pages/Blogs.tsx:22 | page p (from 1) is `filtered[(p-1)*5 .. min(p*5, n))`, at most five records, empty when out of range |
| `Blogs.SecondPageOfTwelve` | src/pages/Blogs.tsx:22 | page 2 of twelve records is the records at indices 5 to 9 |
| `Blogs.ButtonPagesNonEmpty` | src/components/common/Pagination.tsx:10 | every page p in 1..ceil(n/5) shows at least one record |
| `Blogs.AllButtonPagesNonEmpty` | src/components/common/Pagination.tsx:10-13 | all pages 1..ceil(n/5) at once: each shows at least one record |
| `Blogs.PagesThroughPrefix` | src/pages/Blogs.tsx:22 | pages 1..k shown in turn are the first `min(5k, n)` records |
| `Blogs.AllPagesReproduceListing` | src/pages/Blogs.tsx:22 | pages 1..ceil(n/5) shown in turn reproduce the listing exactly |
| `Blogs.MarkDeleted` | src/pages/Blogs.tsx:25-27 | soft delete keeps the length and order; a record with the id gets `isDeleted=true` and `deletedAt=now` and keeps all else; other records are unchanged |
| `Blogs.MarkDeletedKeepsIds` | src/pages/Blogs.tsx:25-27 | soft delete keeps the id sequence, so unique ids stay unique |
| `Blogs.MarkDeletedRepeat` | src/pages/Blogs.tsx:26 | deleting again overwrites `deletedAt` with the newer time and changes nothing else |
| `Blogs.MarkDeletedLifecycle` | src/pages/Blogs.tsx:26 | soft delete never undeletes a record and keeps "`deletedAt` present exactly when deleted" |
| `Blogs.MarkDeletedHidden` | src/pages/Blogs.tsx:17-26 | after a soft delete no record with that id is listed, whatever the search and status |
| `Blogs.BlogsView.constructor` | src/pages/Blogs.tsx:8-11 | the page starts with no records, empty search and status, on page 1 |
| `Blogs.BlogsView.Load` | src/pages/Blogs.tsx:14 | the mount effect loads the purged collection, which is then also what storage holds |
| `Blogs.BlogsView.Filtered` | src/pages/Blogs.tsx:16-20 | the page's filtered list holds exactly the loaded records that match the current search and status, in loaded order |
| `Blogs.BlogsView.Paginated` | src/pages/Blogs.tsx:22 | the shown page holds only filtered records, and at most five while the page number is at least 1 |
| `Blogs.BlogsView.PageButtons` | src/pages/Blogs.tsx:104-109 | there is one button per page of the filtered list; button i selects page i+1, which is non-empty, and is highlighted exactly when that is the current page |
| `Blogs.BlogsView.SetSearch` | src/pages/Blogs.tsx:42 | typing a search sets it and resets the page to 1 |
| `Blogs.BlogsView.SetStatus` | src/pages/Blogs.tsx:47 | choosing a status sets it and resets the page to 1 |
| `Blogs.BlogsView.ClickPage` | src/components/common/Pagination.tsx:14 | clicking button i sets the page to its number i+1, always within 1..pages, and that page is non-empty |
| `Blogs.BlogsView.SoftDelete` | src/pages/Blogs.tsx:24-30 | the in-memory list becomes the soft-deleted list, and storage holds exactly the same list |
| `Pagination.Ceil` | src/components/common/Pagination.tsx:10 | `Math.ceil(x)` is the integer c with c-1 < x <= c |
| `Pagination.PageCount` | src/components/common/Pagination.tsx:10 | the page count c satisfies (c-1)·perPage < total <= c·perPage; it is zero exactly when total is zero |
| `Pagination.Buttons` | src/components/common/Pagination.tsx:13-16 | there is one button per page; button i shows i+1 and is highlighted exactly when i+1 is the current page |
| `Pagination.ButtonNumbers` | src/components/common/Pagination.tsx:13-16 | the buttons are numbered 1..pages in strictly increasing order |
| `Pagination.OneHighlighted` | src/components/common/Pagination.tsx:15 | at most one button is highlighted, it is the current page, and one is highlighted exactly when the page is in 1..pages |
| `CreateBlog.NewBlog` | src/pages/CreateBlog.tsx:14-19 | the new record carries the submitted content fields unchanged, the given id, `createdAt=now`, and is not deleted |
| `CreateBlog.NewBlogSurvives` | src/pages/CreateBlog.tsx:18 | a new record keeps the lifecycle invariant and survives every later read |
| `CreateBlog.Created` | src/pages/CreateBlog.tsx:11-22 | the saved list is the purged list, untouched, plus the new record at the end; every saved record passes the purge test at `now` |
| `CreateBlog.CreatedCollection` | src/pages/CreateBlog.tsx:11-22 | every saved record is the new one or a stored record the purge keeps; a fresh id keeps ids unique |
| `CreateBlog.Submit` | src/pages/CreateBlog.tsx:10-22 | storage afterwards holds the purge of what was stored, followed by the new record |
| `EditBlog.ApplyEdit` | src/pages/EditBlog.tsx:24 | the merge takes every submitted field (an absent image keeps the old one); id, `createdAt`, `isDeleted` and `deletedAt` keep their old values |
| `EditBlog.EditById` | src/pages/EditBlog.tsx:24 | the edit keeps the length; records with the id are merged, every other record is unchanged |
| `EditBlog.EditByIdLifecycle` | src/pages/EditBlog.tsx:24 | the edit keeps the id sequence and unique ids, never changes `isDeleted`, and keeps the lifecycle invariant |
| `EditBlog.EditByIdIdempotent` | src/pages/EditBlog.tsx:24 | submitting the same data twice is submitting it once |
| `EditBlog.EditView.constructor` | src/pages/EditBlog.tsx:9-11 | the page starts with no record for its route id |
| `EditBlog.EditView.Load` | src/pages/EditBlog.tsx:14-17 | the mount reads (and purges) storage; the page holds the first record with the route id if there is one, otherwise what it held before |
| `EditBlog.EditView.Submit` | src/pages/EditBlog.tsx:20-25 | only possible once a record was found; storage afterwards holds the freshly purged list with the form merged into the route id's records |
| `Validators.ValidateImage` | src/utils/validators.ts:1-6 | a type other than JPEG or PNG gives the type message even when oversize; an allowed type over 1048576 bytes gives the size message; the result is empty exactly when the type is allowed and size <= 1048576 |
| `Validators.JpgRejected` | src/utils/validators.ts:2-3 | "image/jpg" is rejected with the type message, whatever the size |
| `Validators.SizeBoundary` | src/utils/validators.ts:4 | exactly 1048576 bytes is accepted, 1048577 is not |
| `BlogCard.Truncate` | src/components/blog/BlogCard.tsx:37-41 | empty text gives ""; text within the limit is returned unchanged; longer text gives its first `maxLength` characters and "...", `maxLength+3` long |
| `BlogCard.TruncateDescription` | src/components/blog/BlogCard.tsx:37-40 | with the default limit 120, the card text is at most 123 long; a description of at most 120 characters is shown unchanged, a longer one as its first 120 characters followed by "..." |
| `BlogCard.TruncateIdempotent` | src/components/blog/BlogCard.tsx:37-41 | truncating an already truncated text changes nothing |
| `BlogCard.IdBadge` | src/components/blog/BlogCard.tsx:159 | the badge shows the first 8 characters of the id (the whole id if shorter) |
| `BlogCard.ShowsDeletedNotice` | src/components/blog/BlogCard.tsx:175 | the deletion notice never shows for a live record; for a record with the lifecycle invariant it shows exactly when the record is deleted |
| `BlogCard.PurgeTime` | src/components/blog/BlogCard.tsx:184 | the announced removal time is `deletedAt` plus exactly the store's retention window of `PurgeDays` days |
| `BlogCard.PurgeTimeIsFirstDrop` | src/components/blog/BlogCard.tsx:184 | the announced time `deletedAt + 7·24·60·60·1000` is the first instant at which a read drops the record |
| `Lifecycle.CreateDeletePurge` | src/utils/localStorage.ts:7-22 | on a new profile: create, then a read returns just the new record; after soft delete the list page shows nothing while a read still returns the deleted record; a read `elapsed` ms later is empty exactly when `elapsed` is 7 days or more |

## Left out

- The browser `localStorage` API and JSON encoding: the entry is the field `BlogStore.stored`. A malformed value (where `JSON.parse` throws) is not modelled.
- Date strings: `createdAt` and `deletedAt` are milliseconds, not ISO-8601 strings. A `deletedAt` that does not parse (a NaN difference, which the source drops) or is the empty string (falsy, also dropped) cannot be written in the model.
- Floating point: the day quotient and the page-count quotient `total / perPage` are exact real divisions. At realistic timestamp sizes, double rounding cannot move the day quotient across 7, and the page-count quotient is exact for every array length.
- The clock: `now` is a parameter. The create handler reads the clock twice (`Date.now()` inside `getBlogs` and `new Date()` for `createdAt`); the model uses one `now` for both.
- `uuid()`: the new id is a parameter. Its freshness is the hypothesis of the uniqueness clause of `CreateBlog.CreatedCollection`.
- Unicode `toLowerCase`: only ASCII letters are lower-cased.
- BlogCard.Truncate: lengths and the cut count Unicode scalar values, while `length` and `substring` count UTF-16 code units. Text with characters outside the Basic Multilingual Plane truncates differently: 70 copies of U+1F600 are 140 code units and the source cuts them, while the model keeps them whole. A cut inside a surrogate pair leaves a lone surrogate, which a Dafny `char` cannot hold.
- BlogCard.TruncateDescription: its 120 and 123 bounds are in Unicode scalar values, not UTF-16 code units, for the same reason.
- BlogCard.IdBadge: `substring(0, 8)` counts UTF-16 code units; the model counts scalar values. The two agree on the ASCII uuid ids the source generates.
- The blog form (BlogForm.tsx): submitted data is taken as the seven form fields of `BlogData`. The edit page's `data: any` could carry other keys; the model admits only these seven.
- Pagination.PageCount: requires `perPage > 0`; the only caller passes 5, and zero is not modelled.
- Concurrency: two tabs can race between a read and a save, and the list page saves its in-memory list without re-reading. This is outside a sequential model.
- Presentation: JSX, styling, routing and `nav("/blogs")`, `formatDate` and locale formatting, `console.log` effects, the status badge, the "Uncategorized"/"Anonymous" fallbacks, and the Dashboard page.
