# MindustryToolFrontend: list and state rules of the moderation and upload pages

This project models the logic layer of the MindustryTool web client. That client is a React single-page application for a
community that shares Mindustry schematics, posts and servers. Most of it is JSX rendering. The parts modelled here are the
list and state-update rules inside five source files:

- **Schematic verification page** (`VerifySchematicPage.tsx`). It holds the admin's list of uploaded schematics as a cache of
  pages (`SchematicInfo[][]`, starting as `[[]]`) and a loader state (LOADING / MORE / NO_MORE). `loadPage` picks the page
  index to request from whether the last page is full, then appends or overwrites a page. `loadToPage` resets the list and
  re-requests every page. A render loop flattens the pages into a keyed grid. A panel edits one schematic's tags, and its
  verify request sends them as a `name:value,name:value` string.
- **Utilities** (`Utils.ts`): `array2dToArray1d` flattens a two-dimensional array. `getFileExtension` returns the text after
  the last dot.
- **Upload page** (`UploadSchematicPage.tsx`). A schematic is chosen either as a `.msch` file or as clipboard code that starts
  with `bXNja`. Those five characters begin the Base64 (section 4 of RFC 4648) form of every text that starts with the file
  magic `msch`. The page keeps a file and a code that are never both set, and it submits the file in preference to code
  longer than 8 UTF-16 code units.
- **Post verification page** (`VerifyPostPage.tsx`). Rejecting or verifying a post always removes that post object from the
  queue. The pending counter drops by one only when the whole success chain completes. Editing a post's content builds a new
  object, which the queue then does not remove.
- **Server list** (`MindustryServerPage.tsx`). Every render sorts the list in place, stably, so that named servers come first.
  Removing a server drops every entry with its address. There are also the display choices for title, mode, player limit and
  version.

Network requests are not performed. Each reply is an input value: `Reply<T> = Answered(status, data) | Rejected`, or a boolean
for requests whose body is ignored. Each promise completion handler runs as one sequential step. State that React keeps
(`useState`) is represented by fields of a class whose methods update them. Pure expressions (tag strings, candidate filters,
display choices) are represented by functions.

Two behaviours of `VerifySchematicPage.tsx` are modelled as written:

- `loadPage` never sets LOADING and has no guard. The footer button calls it in both MORE and NO_MORE. After NO_MORE caused by a short
  page, a click requests that short last page again and replaces it (`ShortPageIsRequestedAgain`).
- `loadToPage` writes back the list as it was before the reset, not the fetched items (`ReloadedPages`).

`API.REQUEST` (`src/API.ts:6-10`) keeps axios's default status check, so a reply with an HTTP error status rejects the request.
After a reply, a rejected request (including an HTTP error status) leads to MORE. NO_MORE follows a short page, a 2xx status
other than 200, or a resolved reply without a body.

`src/config/Config.ts:19` declares the loader state as the string union `'loading' | 'more' | 'out'`. The page instead uses
enum members `LoaderState.LOADING`, `MORE` and `NO_MORE`. The model uses one datatype, `Config.LoaderState`, with those three
states.

## Model

| member | source | states |
|---|---|---|
| `VerifySchematic.RequestedPage` | src/routes/admin/VerifySchematicPage.tsx:66-69 | the index requested is the page count exactly when the last page holds MAX_ITEM_PER_PAGE items, otherwise the last page's index |
| `VerifySchematic.StorePage` | src/routes/admin/VerifySchematicPage.tsx:72-74 | an accepted reply becomes the page at the requested index, which is then the last page; every earlier page is unchanged |
| `VerifySchematic.StateAfter` | src/routes/admin/VerifySchematicPage.tsx:71-82 | the loader state after a reply is never LOADING; it is MORE exactly for a rejected request or an accepted reply of at least MAX_ITEM_PER_PAGE items, NO_MORE for a short page, a resolved status other than 200 (a 2xx such as 204) or a missing body |
| `VerifySchematic.StoreKeepsLayout` | src/routes/admin/VerifySchematicPage.tsx:67-74 | with replies of at most one page, storing keeps the layout: at least one page, every page but the last full, none over full |
| `VerifySchematic.RequestedPageMatchesOffset` | src/routes/admin/VerifySchematicPage.tsx:66-69 | under that layout, the pages before the requested index hold exactly index * MAX_ITEM_PER_PAGE items, which is where the server's page begins |
| `VerifySchematic.ShortPageIsRequestedAgain` | src/routes/admin/VerifySchematicPage.tsx:65-83 | after a short page the next load requests the same index again, and the same reply stored again leaves the cache unchanged |
| `VerifySchematic.TwentyTwentySeven` | src/routes/admin/VerifySchematicPage.tsx:65-83 | from `[[]]`, replies of 20, 20 and 7 schematics give exactly those three pages, 47 schematics, and NO_MORE |
| `VerifySchematic.VerifySchematicPage.constructor` | src/routes/admin/VerifySchematicPage.tsx:20-32 | the list starts as one empty page, the loader state as LOADING, no upload tags, modal closed |
| `VerifySchematic.VerifySchematicPage.GetSchematicUploadTag` | src/routes/admin/VerifySchematicPage.tsx:33-43 | a resolved reply with a body replaces the tag choices by the flattened groups whatever its 2xx status; no body or a rejection (including an HTTP error status) changes nothing |
| `VerifySchematic.VerifySchematicPage.LoadPage` | src/routes/admin/VerifySchematicPage.tsx:65-83 | requests `RequestedPage` of the old list; an accepted reply is stored by `StorePage`, any other leaves the list alone; the state becomes `StateAfter`; the layout is kept for replies of at most one page |
| `VerifySchematic.VerifySchematicPage.LoadToPage` | src/routes/admin/VerifySchematicPage.tsx:45-63 | requests pages 0 .. page-1 in order; the list ends as the pre-reset list if any reply was accepted, else `[[]]`; the state is LOADING with no request, else that of the last reply |
| `VerifySchematic.ReloadedPages` | src/routes/admin/VerifySchematicPage.tsx:46-61 | after a reload the list is either the list from before the reset or the reset list `[[]]`, and `[[]]` when no page was requested |
| `VerifySchematic.ReloadAddsNothing` | src/routes/admin/VerifySchematicPage.tsx:46-61 | whatever the replies carry, a schematic not listed before the reload is not listed after it |
| `VerifySchematic.ReloadedState` | src/routes/admin/VerifySchematicPage.tsx:46-61 | the state after a reload is LOADING exactly when no page was requested, otherwise the state the last reply leads to |
| `VerifySchematic.RenderSchematicArray` | src/routes/admin/VerifySchematicPage.tsx:85-102 | the grid is every schematic of every page in page order, keyed `p * MAX_ITEM_PER_PAGE + i` |
| `VerifySchematic.RenderedKeysArePositions` | src/routes/admin/VerifySchematicPage.tsx:86-91 | when every page but the last is full, the key of each grid entry is its position in the flattened list, so keys are distinct, and it carries the schematic at that position |
| `VerifySchematic.SchematicVerifyPanel.constructor` | src/routes/admin/VerifySchematicPage.tsx:104-105 | the panel starts with the parsed tags and an empty query |
| `VerifySchematic.SchematicVerifyPanel.HandleRemoveTag` | src/routes/admin/VerifySchematicPage.tsx:107-109 | an index in range removes exactly that tag and keeps the rest in order; any other index changes nothing |
| `VerifySchematic.SchematicVerifyPanel.HandleAddTag` | src/routes/admin/VerifySchematicPage.tsx:134-138 | a missing tag changes nothing; otherwise the tag is appended, same-name tags stay, and the query is cleared |
| `VerifySchematic.SchematicVerifyPanel.VerifySchematic` | src/routes/admin/VerifySchematicPage.tsx:117-132 | the form carries id, author, data and the tag string of the chosen tags; the list is reloaded as by `LoadToPage` for its current length and the modal closes |
| `VerifySchematic.SchematicVerifyPanel.DeleteSchematic` | src/routes/admin/VerifySchematicPage.tsx:111-115 | the modal closes, the schematic id is deleted, and the list is reloaded as by `LoadToPage` for its current length |
| `Tags.FlattenTagGroups` | src/routes/admin/VerifySchematicPage.tsx:36-41 | the tag choices are the groups' rows of choices concatenated in group order |
| `Tags.TagChoicePlacement` | src/routes/admin/VerifySchematicPage.tsx:38-40 | one choice per (group, value) pair: value j of group i sits after all values of earlier groups, with the group's name and colour |
| `Tags.TagString` | src/routes/admin/VerifySchematicPage.tsx:119 | the tag string is empty exactly when no tag is chosen, and otherwise begins with the first tag's `name:value` |
| `Tags.TagStringRoundTrip` | src/routes/admin/VerifySchematicPage.tsx:119 | for a non-empty list of tags with no `:` or `,` in a name and no `,` in a value, splitting the comma-joined `name:value` string at commas and first colons gives back the (name, value) pairs in order |
| `Tags.PanelCandidates` | src/routes/admin/VerifySchematicPage.tsx:163-164 | a tag is offered exactly when it is in the list and its name or value contains the query; chosen tags are not excluded |
| `Tags.UploadCandidates` | src/routes/upload/UploadSchematicPage.tsx:181 | a tag is offered exactly when it is in the list, its name or value contains the query, and it is not already chosen |
| `Tags.UploadCandidatesEmptyQuery` | src/routes/upload/UploadSchematicPage.tsx:181 | with an empty query every unchosen tag is offered, in list order |
| `Tags.PostCandidates` | src/routes/admin/verify/VerifyPostPage.tsx:146 | a tag is offered exactly when it is in the list, its lowered display string contains the lowered query, and it is not already chosen |
| `Tags.PostCandidatesIgnoreQueryCase` | src/routes/admin/verify/VerifyPostPage.tsx:146 | lowering the query first changes nothing: the search ignores the query's case |
| `Utils.Array2dToArray1d` | src/util/Utils.ts:12-21 | the result is the rows concatenated in order |
| `Utils.FlattenLength` | src/util/Utils.ts:12-21 | the flat array's length is the sum of the row lengths |
| `Utils.FlattenAt` | src/util/Utils.ts:15-18 | element j of row i lands at (sum of the lengths of rows before i) + j |
| `Utils.FlattenAppend` | src/util/Utils.ts:15-18 | flattening two lists of rows one after the other gives the two flat arrays one after the other |
| `Utils.FlattenSkipsEmptyRow` | src/util/Utils.ts:15-18 | an empty row contributes nothing wherever it stands |
| `Utils.GetFileExtensionIsDotFreeSuffix` | src/util/Utils.ts:35-38 | the extension is a suffix of the name and contains no dot |
| `Utils.GetFileExtensionWithoutDot` | src/util/Utils.ts:36-37 | a name without a dot is its own extension |
| `Utils.GetFileExtensionAfterLastDot` | src/util/Utils.ts:36-37 | for `base + "." + ext` with ext dot-free the result is ext; a trailing dot or an empty name gives `''` |
| `Utils.GetFileExtension` | src/util/Utils.ts:35-38 | the extension never contains a dot |
| `Seqs.RemoveIndex` | src/routes/upload/UploadSchematicPage.tsx:103-105 | removing by index shortens the list by one exactly when the index is in range |
| `Seqs.RemoveIndexSpec` | src/routes/admin/verify/VerifyPostPage.tsx:126-128 | an index in range removes exactly that element and keeps the others in order; any other index leaves the list unchanged |
| `UploadSchematic.SchematicFilesPassCodeCheck` | src/routes/upload/UploadSchematicPage.tsx:55 | the Base64 form of any bytes beginning with `msch` starts with `bXNja`, so schematic code always passes the check |
| `Text.Utf16Length` | src/routes/upload/UploadSchematicPage.tsx:87 | `code.length` counts UTF-16 code units: at least one and at most two per character, and exactly one per character when none lies outside the Basic Multilingual Plane |
| `UploadSchematic.CodeLengthCountsCodeUnits` | src/routes/upload/UploadSchematicPage.tsx:87 | code of eight characters, one of them outside the Basic Multilingual Plane, counts nine code units and is sent |
| `UploadSchematic.SubmissionFor` | src/routes/upload/UploadSchematicPage.tsx:77-88 | something is sent only with tags, carrying their tag string; a file part only for a stored `msch` file, a code part only for code longer than 8 UTF-16 code units when there is no such file; with tags and either of these, something is sent |
| `UploadSchematic.PreviewAfter` | src/routes/upload/UploadSchematicPage.tsx:71-74 | a resolved reply's body becomes the preview whatever its 2xx status; a rejection (including an HTTP error status) keeps the preview shown |
| `UploadSchematic.UploadSchematicPage.constructor` | src/routes/upload/UploadSchematicPage.tsx:19-25 | no file, empty code, no preview, empty query, no tags |
| `UploadSchematic.UploadSchematicPage.HandleFileChange` | src/routes/upload/UploadSchematicPage.tsx:31-49 | no file or a non-`msch` extension changes nothing and sends nothing; otherwise the file is stored, the code cleared and the file sent for preview; file and code are never both set |
| `UploadSchematic.UploadSchematicPage.HandleCodeChange` | src/routes/upload/UploadSchematicPage.tsx:51-69 | text not starting with `bXNja` changes nothing; otherwise the code is stored, the file dropped and the code sent for preview |
| `UploadSchematic.UploadSchematicPage.HandleSubmit` | src/routes/upload/UploadSchematicPage.tsx:76-101 | sends `SubmissionFor` the state; a successful upload clears code, file, preview and tags, anything else leaves them |
| `UploadSchematic.UploadSchematicPage.HandleRemoveTag` | src/routes/upload/UploadSchematicPage.tsx:103-105 | an index in range removes exactly that tag, keeping the others in order; other state unchanged |
| `UploadSchematic.UploadSchematicPage.HandleAddTag` | src/routes/upload/UploadSchematicPage.tsx:107-113 | a missing tag changes nothing; otherwise it is appended without deduplication and the query cleared |
| `UploadSchematic.StoredFileIsSubmitted` | src/routes/upload/UploadSchematicPage.tsx:86 | with tags, a stored `msch` file is what is uploaded, with the tag string, whatever the code |
| `UploadSchematic.SubmitWithoutFile` | src/routes/upload/UploadSchematicPage.tsx:77-88 | without tags nothing is sent; without a schematic file, code is sent exactly when longer than 8 UTF-16 code units |
| `VerifyPost.WithoutPost` | src/routes/admin/verify/VerifyPostPage.tsx:49 | the post object is gone from the queue, every other post stays, nothing is added |
| `VerifyPost.WithoutAbsentPost` | src/routes/admin/verify/VerifyPostPage.tsx:59 | removing an object the queue does not hold leaves the queue unchanged |
| `VerifyPost.WithoutPostIdempotent` | src/routes/admin/verify/VerifyPostPage.tsx:49 | removing the same post twice is removing it once |
| `VerifyPost.VerifyPostPage.constructor` | src/routes/admin/verify/VerifyPostPage.tsx:29-36 | the queue holds the given posts, the counter the given total, the modal is closed |
| `VerifyPost.VerifyPostPage.RejectPost` | src/routes/admin/verify/VerifyPostPage.tsx:43-50 | sends the post with the reason; the post object leaves the queue in every case; the total drops by one only on success; success and failure raise their popups |
| `VerifyPost.VerifyPostPage.VerifyPost` | src/routes/admin/verify/VerifyPostPage.tsx:52-60 | sends the post with the chosen tags; the post object leaves the queue in every case; the author is notified only after a successful verify; the total drops by one only when verify and notification both succeed |
| `VerifyPost.PostUploadInfo.constructor` | src/routes/admin/verify/VerifyPostPage.tsx:109-113 | the panel starts on the given post, with the parsed tags and an empty query |
| `VerifyPost.PostUploadInfo.HandleAddTag` | src/routes/admin/verify/VerifyPostPage.tsx:120-124 | the tag is appended without deduplication and the query cleared |
| `VerifyPost.PostUploadInfo.HandleRemoveTag` | src/routes/admin/verify/VerifyPostPage.tsx:126-128 | an index in range removes exactly that tag, keeping the others in order |
| `VerifyPost.PostUploadInfo.EditContent` | src/routes/admin/verify/VerifyPostPage.tsx:157-161 | a new post object with the new content and every other field copied |
| `VerifyPost.EditThenReject` | src/routes/admin/verify/VerifyPostPage.tsx:157-178 | the edited post is a new object with the new content, and the tags and query are kept; the rejection sends that object, which the queue never held, so the queue is unchanged while the modal closes and the counter still drops on success |
| `MindustryServers.OrderNamedFirst` | src/routes/mindustry-server/MindustryServerPage.tsx:39 | one pass computes the stable named-first order |
| `MindustryServers.Compare` | src/routes/mindustry-server/MindustryServerPage.tsx:39 | the comparator is -1, 0 or 1; negative exactly when only the first server is named, positive exactly when only the second is |
| `MindustryServers.NamedFirstIsPermutation` | src/routes/mindustry-server/MindustryServerPage.tsx:39 | the sorted list is a permutation of the list |
| `MindustryServers.NamedFirstIsSorted` | src/routes/mindustry-server/MindustryServerPage.tsx:39 | the sorted list is ordered by the comparator: every named server precedes every unnamed one |
| `MindustryServers.NamedFirstIsStable` | src/routes/mindustry-server/MindustryServerPage.tsx:39 | named servers keep their relative order, and so do unnamed ones |
| `MindustryServers.NamedFirstIdempotent` | src/routes/mindustry-server/MindustryServerPage.tsx:39 | sorting again on the next render changes nothing |
| `MindustryServers.MindustryServerPage.constructor` | src/routes/mindustry-server/MindustryServerPage.tsx:20-22 | the page holds the given servers in a fresh array, dialog closed |
| `MindustryServers.MindustryServerPage.SortPages` | src/routes/mindustry-server/MindustryServerPage.tsx:39 | the array is reordered in place into the named-first order of its old contents |
| `MindustryServers.WithoutAddress` | src/routes/mindustry-server/MindustryServerPage.tsx:36 | exactly the servers at other addresses remain |
| `MindustryServers.WithoutAddressStable` | src/routes/mindustry-server/MindustryServerPage.tsx:31-37 | removing an unlisted address changes nothing; removing twice is removing once |
| `MindustryServers.MindustryServerPage.HandleRemoveServer` | src/routes/mindustry-server/MindustryServerPage.tsx:31-37 | whatever the delete outcome, the list becomes the servers at other addresses in order; the popup reports the outcome |
| `MindustryServers.Display` | src/routes/mindustry-server/MindustryServerPage.tsx:151-213 | title is the name if non-empty else the address (never empty for a non-empty address); mode shows the map name when `modeName` is non-empty; `/playerLimit` only for a non-zero limit; `versionType` exactly when `version` is -1 |

## Left out

- `Answered(status, _)` stands for a resolved request. Under `API.REQUEST`'s default `validateStatus` that means a 2xx status; HTTP error statuses are `Rejected`.
- HTTP and axios (`src/API.ts` and every `API.*` call): each reply is a parameter. Requests whose outcome is only `then`/`catch` are a success boolean.
- Promise interleaving: the replies to `loadToPage`'s requests are handled in the order the requests were issued. The model does not cover their arrival in any other order.
- Aliasing of the React state array: `loadPage` pushes into, or assigns into, the array held in state, then stores a copy. The model updates a sequence value.
- Alerts (`alert(...)`) of the upload page, the preview image, tabs, modal open/close clicks, i18n, CSS and all JSX.
- `handleAddServer` of the server page: it only posts an address and raises a popup, and the list does not change.
- `!event.target` in `handleFileChange`: a file input's change event always has a target. A clipboard read that rejects never reaches the handler, which matches not calling `HandleCodeChange`.
- `getPreview` builds a `FormData` and posts it; the form itself is not modelled, only the request payload (`Payload`) and what the reply does to the preview (`PreviewAfter`).
- `TagChoice.parseArray`, `Tags.parseArray`, `toDisplayString`, `useDialog`, `useModel` and the popup provider are not part of this model. Parsed tags are constructor arguments. `toDisplayString` is a function parameter. Popups are returned values.
- `useInfinitePage` is not part of this model. Its `filter` is modelled as a filter over the flat list of loaded items. Its page loading, `hasMore` and `isLoading` are not modelled.
- `src/util/StringUtils`, from which the upload page imports `getFileExtension`, is not part of this model. The upload page uses `Utils.GetFileExtension`.
- `getUrlParam`, `cn`, `getDownloadUrl` and `isString` of `Utils.ts`, because they rely on `window.location`, RegExp, tailwind-merge, Blob and runtime reflection.
- Auth, session and routing (`App.tsx`, `UserProvider.tsx`) and the presentational widgets.
- JavaScript truthiness is modelled for the values involved: a string is truthy when non-empty, a number when non-zero, and an array or object always. An absent `name` or `modeName` is the empty string. A NaN `playerLimit` is not modelled.
- `MindustryServers.MindustryServerPage.SortPages`: the engine's sorting algorithm is not modelled. Only its result is: ECMA-262 requires `Array.prototype.sort` to be stable, so the comparator fixes the result.
- `Tags.UploadCandidates`: `tags.includes(t)` compares objects by identity. The model compares tag values, which agrees when the chosen tags were picked from the offered list and that list has no two equal tags.
- `Tags.PostCandidates`: `toLowerCase` is modelled for ASCII letters only, without Unicode case mapping. Chosen tags are compared by value, not identity.
- `Tags.TagStringRoundTrip` excludes the empty list: it serialises to `""`, which reads back as one empty entry. It also excludes tags with `:` or `,` in the name or `,` in the value: the wire string is ambiguous for them. The verification panel sends that string for a schematic with no tags.
