# Module search page and module action dialogs, modelled in Dafny

This project models two pieces of a module-registry web front end.

**The mobile filter page** (`src/pages/MobileFilterPage.tsx`). The module store
holds a raw search string. Inline tags such as `tag:audio ` inside that string
are found with the global regular expression `/tag:\w+ /g`. Each match is shown
as a chip labelled with the token minus `tag:`. The text box shows the raw
string with each tag's first occurrence removed, then trimmed. The page has
four handlers:

- typing rebuilds the raw string from the chips and the typed text, and
  debounces a fetch by 1500 ms;
- Backspace in an empty box drops the last character of the raw string;
- a filter change fetches at once;
- a page-size change truncates the loaded modules or fetches more.

**The module action buttons** (`src/pages/Modules/ModuleList/ModuleActions.tsx`).
Two observable flags record whether the edit and the delete dialog are open.
Four actions open and close them. The buttons that call the two click
handlers are rendered only for an authenticated user.

Files:

- `wrappers.dfy`: `Option`.
- `js_string.dfy`: the JavaScript string operations the page relies on, as
  ECMAScript defines them: `replace` with a string pattern (first occurrence
  only) and `trim`.
- `tag_search.dfy`:
  - the `/tag:\w+ /g` scanner and a regex-free definition of a tag token;
  - the proof that the scanner returns exactly the leftmost non-overlapping
    tokens;
  - chip labels, `join`, the stripping loop and the displayed free text.
- `mobile_filter_page.dfy`: class `MobileFilterPage`. Its fields are the
  store's `search`, `searchFilter`, `modulesPerPage` and `modules`, and the
  page's `searching` and `searchTimeout`. Its environment is the set of pending
  timers and the log of `getModules` calls. Each handler is a method. A timer
  firing and a fetch settling are methods too.
- `module_actions.dfy`: class `ModuleActions`, with its two flags and four
  actions, and the invariant that the two dialogs are never open together.
- `tag_examples.dfy`: worked inputs proved from the general lemmas.

The model follows the code as written, including these behaviours:

- Nothing suppresses stale responses. Any completing timer fetch clears
  `searching`.
- `searching` is set when the timer fires, not when it is scheduled.
- A rejected `getModules` leaves `searching` true, because the line after the
  `await` is never reached.
- Backspace removes one character of the raw string, not a whole tag. After
  Backspace over two chips, the second token loses its space, stops being a
  tag and reappears in the text box (`TagExamples.BackspaceAfterTwoTags`).
- Stripping tags is not idempotent. Removing the tag of `"tag:tag:x yy z"`
  leaves `"tag:yy z"`, and that text holds a new tag
  (`TagExamples.StrippingRevealsTag`).
- The handle of a fired timer stays in `searchTimeout`. A later
  `clearTimeout` on it does nothing.
- A fetch for a larger page is issued before the new page size is stored. The
  log records it with the old size.

## Model

| member | source | states |
|---|---|---|
| JsString.IndexOf | src/pages/MobileFilterPage.tsx:111 | the search inside `replace`: the result is an occurrence at or after the start index with none before it, or there is no occurrence at all |
| JsString.ReplaceFirst | src/pages/MobileFilterPage.tsx:111 | `replace` with a string pattern splices out the leftmost occurrence and nothing else; without an occurrence the text is returned unchanged |
| JsString.Trim | src/pages/MobileFilterPage.tsx:113 | `trim` returns a slice of its input with only trimmable characters on either side, and the result neither starts nor ends with one |
| JsString.TrimIdentity | src/pages/MobileFilterPage.tsx:113 | trimming leaves a text unchanged if and only if it has no trimmable character at either end |
| TagSearch.PrefixAtIsTagPrefix | src/pages/MobileFilterPage.tsx:98 | the character test for `tag:` used by the matcher holds exactly where the literal `tag:` occurs |
| TagSearch.WordRunIsMaximal | src/pages/MobileFilterPage.tsx:98 | `\w+` is greedy: the run holds only word characters and is not followed by one |
| TagSearch.MatchAt | src/pages/MobileFilterPage.tsx:98 | a match of `tag:\w+ ` is at least six characters long and lies within the text |
| TagSearch.MatchAtExact | src/pages/MobileFilterPage.tsx:98 | the matcher at an index reports length `n` if and only if the `n` characters there form a tag token, so at most one token starts at each index |
| TagSearch.ScanLength | src/pages/MobileFilterPage.tsx:98 | the global scan finds at most one match per six characters scanned |
| TagSearch.Tags | src/pages/MobileFilterPage.tsx:98 | `search.match(/tag:\w+ /g)` as the tokens of the scan, no match giving no tags; a text has at most one tag per six characters |
| TagSearch.ScanIsTokenList | src/pages/MobileFilterPage.tsx:98 | every match of the global scan is a tag token at its position, and matches come in increasing, non-overlapping order |
| TagSearch.ScanIsMatchList | src/pages/MobileFilterPage.tsx:98 | the scan also leaves no token start uncovered, so it is a leftmost match list |
| TagSearch.MatchListIsScan | src/pages/MobileFilterPage.tsx:98 | any leftmost, non-overlapping token list from a position equals the scan from it |
| TagSearch.ScanIsTheGlobalMatch | src/pages/MobileFilterPage.tsx:98 | a list is the leftmost non-overlapping list of tag tokens if and only if it is the scan's result |
| TagSearch.TagsAreTokens | src/pages/MobileFilterPage.tsx:98 | every extracted tag is a tag token, and a text with a tag is at least six characters long |
| TagSearch.TagsEmptyIff | src/pages/MobileFilterPage.tsx:98 | no tag is extracted if and only if no substring of the text is a tag token |
| TagSearch.TagsAfterToken | src/pages/MobileFilterPage.tsx:98 | a tag token at the front of a text is its first tag, and the remaining tags are those of the rest |
| TagSearch.TagsAfterSpace | src/pages/MobileFilterPage.tsx:98 | a leading space adds no tag |
| TagSearch.Join | src/pages/MobileFilterPage.tsx:118 | `tags.join(' ')`: a join of a non-empty list starts with its first element |
| TagSearch.TagsOfJoin | src/pages/MobileFilterPage.tsx:118 | re-scanning the tags joined by spaces in front of typed text yields the same tags, then the tags of the typed text |
| TagSearch.TypedSearch | src/pages/MobileFilterPage.tsx:117-121 | the raw search after typing always ends with the typed text |
| TagSearch.TypedSearchKeepsTags | src/pages/MobileFilterPage.tsx:117-121 | after typing, the raw search has the old tags followed by the tags of the typed text |
| TagSearch.Label | src/pages/MobileFilterPage.tsx:105 | `tag.replace('tag:', '')` is never longer than the tag, and on a text starting with `tag:` it drops exactly those four characters |
| TagSearch.LabelOfToken | src/pages/MobileFilterPage.tsx:105 | a chip label is the token without `tag:`; putting `tag:` back restores the token, and the label ends with the token's space |
| TagSearch.ChipLabels | src/pages/MobileFilterPage.tsx:99-107 | there is one chip per tag, in order, and each label prefixed with `tag:` is its tag |
| TagSearch.StripAll | src/pages/MobileFilterPage.tsx:110-112 | removing each tag's first occurrence in turn never lengthens the text |
| TagSearch.FreeText | src/pages/MobileFilterPage.tsx:109-114 | the text the box shows is never longer than the raw search |
| TagSearch.StripAllShrinks | src/pages/MobileFilterPage.tsx:110-112 | stripping all tags leaves a text no longer than removing the first tag alone |
| TagSearch.FreeTextShape | src/pages/MobileFilterPage.tsx:109-114 | without tags the box shows the raw text untouched and untrimmed; with tags it shows a text at least as much shorter as the first tag is long (so at least six characters shorter), with nothing to trim at either end |
| TagSearch.DisplayedSearch | src/pages/MobileFilterPage.tsx:97-114 | the stripping loop and the final trim compute the free text |
| MobileFilter.SliceTo | src/pages/MobileFilterPage.tsx:161 | `slice(0, n)` keeps the first `min(n, length)` elements unchanged |
| MobileFilter.MobileFilterPage.constructor | src/pages/MobileFilterPage.tsx:91-93 | the page mounts over the store as it is, not searching, with no timer and no fetch |
| MobileFilter.MobileFilterPage.AtMostOnePendingTimer | src/pages/MobileFilterPage.tsx:123-125 | at most one search timer is ever pending |
| MobileFilter.MobileFilterPage.SearchingAfterDebouncedFetch | src/pages/MobileFilterPage.tsx:124-128 | while `searching` is true, the fetch log holds a fetch issued by a timer callback |
| MobileFilter.MobileFilterPage.AwaitingAfterDebouncedFetch | src/pages/MobileFilterPage.tsx:124-128 | while a timer callback awaits its fetch, the fetch log holds a fetch issued by a timer callback |
| MobileFilter.MobileFilterPage.OnSearchChange | src/pages/MobileFilterPage.tsx:116-130 | the search becomes the tags joined by spaces plus the typed text, or the typed text alone; every old tag survives, in order, as a prefix of the new tag list; the pending timer is cleared and exactly one new 1500 ms timer, distinct from the cleared one, is pending; nothing else changes |
| MobileFilter.MobileFilterPage.OnSearchKeyDown | src/pages/MobileFilterPage.tsx:132-137 | the raw search loses exactly its last character if and only if the key is Backspace, the box is empty and there is a tag; otherwise nothing changes and no timer is scheduled |
| MobileFilter.MobileFilterPage.OnFilterChange | src/pages/MobileFilterPage.tsx:147-154 | the current filter changes nothing and fetches nothing; a new filter is stored and fetched exactly once, at once |
| MobileFilter.MobileFilterPage.OnChangeModulesPerPage | src/pages/MobileFilterPage.tsx:156-168 | the same size is a no-op; a smaller size keeps the first `n` modules without a fetch; a larger size fetches once with the old size and keeps the modules; the new size is stored either way |
| MobileFilter.MobileFilterPage.FireSearchTimer | src/pages/MobileFilterPage.tsx:125-127 | the firing timer sets `searching`, leaves no timer pending and issues one debounced fetch with the store as it is then |
| MobileFilter.MobileFilterPage.CompleteSearchFetch | src/pages/MobileFilterPage.tsx:127-128 | a resolved fetch clears `searching`, whichever timer issued it; a rejected one leaves it |
| MobileFilter.TypeBurst | src/pages/MobileFilterPage.tsx:116-130 | text changes with no timer firing issue no fetch and change neither the filter, the page size, the modules nor `searching`; the tags of the search before the burst stay a prefix of its tags after it |
| MobileFilter.TypeThenWait | src/pages/MobileFilterPage.tsx:116-129 | any burst of text changes followed by the timer firing issues exactly one fetch and leaves no timer pending; the fetched search is the last change applied to the search before it, ends with the last typed text and keeps the earlier tags followed by the new ones: the tags of the search before the whole burst are a prefix of the tags before the last change, and those a prefix of the fetched search's tags |
| ModuleActionsDialogs.ModuleActions.constructor | src/pages/Modules/ModuleList/ModuleActions.tsx:33-37 | both dialogs start closed |
| ModuleActionsDialogs.ModuleActions.OnEditDialogClose | src/pages/Modules/ModuleList/ModuleActions.tsx:47-50 | closes the edit dialog, leaves the delete dialog as it was, and changes nothing when already closed |
| ModuleActionsDialogs.ModuleActions.OnClickEditModule | src/pages/Modules/ModuleList/ModuleActions.tsx:52-56 | callable only when authenticated; from any state, edit ends open and delete closed |
| ModuleActionsDialogs.ModuleActions.OnDeleteDialogClose | src/pages/Modules/ModuleList/ModuleActions.tsx:58-61 | closes the delete dialog, leaves the edit dialog as it was, and changes nothing when already closed |
| ModuleActionsDialogs.ModuleActions.OnClickDeleteModule | src/pages/Modules/ModuleList/ModuleActions.tsx:63-67 | callable only when authenticated; from any state, delete ends open and edit closed |
| TagExamples.NoTagsWithout | src/pages/MobileFilterPage.tsx:98 | a text lacking a space or a colon has no tags |
| TagExamples.FreeTextOfTwoTokens | src/pages/MobileFilterPage.tsx:109-114 | a text made of two tag tokens has exactly those two tags and shows an empty box |
| TagExamples.BackspaceAfterTwoTags | src/pages/MobileFilterPage.tsx:132-137 | Backspace after `tag:alpha tag:beta ` keeps only the first tag and shows `tag:beta` in the box |
| TagExamples.BackspaceAfterTwoTagsLabels | src/pages/MobileFilterPage.tsx:99-107 | the one chip left after that Backspace is labelled `alpha ` |
| TagExamples.StrippingRevealsTag | src/pages/MobileFilterPage.tsx:109-114 | the free text of `tag:tag:x yy z` is `tag:yy z`, which itself has the tag `tag:yy ` |

## Left out

- JSX rendering, styling, chip markup and the chips' React keys: view composition with no behaviour.
- Focus and blur state: it only drives a CSS margin.
- Visibility of the `flagged` filter option and the disabled `user` option: presentation only; the handlers accept any filter.
- The body of `getModules`: it is network I/O. Each call is an entry in a log holding the store as it stood when the call was made. Settling is a separate event, either resolved or rejected.
- Wall-clock time: a timer only carries its 1500 ms delay. Firing is an event that can happen to the pending timer.
- React batching and stale closures: each handler is assumed to see tags and free text derived from the store as it is, that is, one re-render between events.
- The page-size option list: any natural number is accepted. The event values are cast without a check, and the model takes them as typed.
- Strings are sequences of Unicode characters, not UTF-16 code units, so Backspace drops one character where JavaScript drops one code unit.
- `replace` is modelled only with an empty replacement, the only one used. Replacement patterns such as `$&` play no part.
- The drawer layout, the markdown editor wrapper and the module page's mount-time loading: layout and I/O glue with no logic of their own.
