# Hyperplane core, modelled in Dafny

Hyperplane is a GTK file manager. Each tab holds a navigation stack of item pages, and each page shows either a folder or a set of tags. A tag is a folder name that acts as a filter. This project models the logic under the widgets and proves properties of it, one module per source file:

- `NavigationBin` (`navigation_bin.dfy`): one tab's history. It covers the navigation view's stack, the pages added to the view, and the `next_pages` redo stack. It includes the decisions `new_page` makes, the `pushed`/`popped` handlers and the `get-next-page` handler. Back and forward are the view's own moves, and they are what fires those handlers. The class invariant says that neighbouring pages in the history never show the same location. Every operation keeps that invariant.
- `PathSegment` (`path_segment.dfy`): one breadcrumb. It covers the record's fields, the rule that a segment carries the `inactive-segment` class exactly when it is inactive, where the label goes, what a click does and what a middle click opens.
- `PathBar` (`path_bar.dfy`): the breadcrumb bar's `segments`, `separators` and `tags` fields. `update` builds the wanted segment list for a folder or a tag list and brings the bar in line with it. Proved: afterwards the bar's (URI, tag) list is the wanted one, and the segments of the longest matching run are the very objects that were there before. `remove`, `append` and `purge` keep the separator map and the active-segment rule.
- `PathEntry` (`path_entry.dfy`): the text the location entry shows for a folder or for tags. It also covers how activating the entry turns typed text into tags or a location, and the inline-completion heuristic with its `prev_text` and `prev_completion`. Tags written by `new_path` and read back by `__activate` give the registry tags again.
- `Tags` (`tags.dfy`): the tag registry, with `add_tags`, `remove_tags` and `update_tags`. The registry file's text reads back as the registry when no tag holds a newline.
- `ItemSorter` (`item_sorter.dfy`): `do_compare` with its trash, recent, folders-first, dot-file and sort-key rules. It also covers a corrected order that is a total preorder (see Findings).
- `EditableRow` (`editable_row.dfy`): a sidebar row and the `hidden-locations` setting.
  - `end_edit` either removes the row's identifier or hides the row with the identifier exactly once, at the end.
  - `set_active` follows the setting.
- `Undo` (`undo.dfy`): the undo queue.
  - It picks the target entry.
  - It dispatches on the entry's kind.
  - It logs and skips the failures each kind handles, and stops at the first it does not handle.
  - It dismisses the toast and pops an entry (see Findings).
- `Item` (`item.dfy`): what binding a file decides. That means the stem and the upper-case extension badge, whether the file is executable, and the tags it has beyond its page's tags. It also covers the context-menu set and the layout arithmetic of a zoom level.
- `Text` (`text.dfy`): the Python string operations the code relies on, such as `str.split` with a separator, `str.join` and `strip`, with their round trips.

Calls into GIO and GTK are parameters of the model:
- file information, scheme-root and mount queries
- `query_file_type`, the filename completer
- `rm`, `move`, `restore` and `set_display_name`
- `strcoll` and date comparison

A failure that such a call raises is an input too, given per call. Logging, dismissing a toast and writing a setting are recorded as state or effects.

## Model

| member | source | states |
|---|---|---|
| NavigationBin.NewPageAction | hyperplane/navigation_bin.py:73-118 | The decision chain equals navigation by target location. It is a no-op when the visible page shows the target. It re-pushes the top of `next_pages` when that page shows the target. Otherwise it creates a page. |
| NavigationBin.NewPageNeverDuplicates | hyperplane/navigation_bin.py:76-116 | A page that `new_page` creates never shows the visible location. A re-pushed page is exactly the requested one. |
| NavigationBin.RequestPrecedence | hyperplane/navigation_bin.py:76-101 | A `gfile` makes `tag` and `tags` irrelevant, and non-empty `tags` make `tag` irrelevant. |
| NavigationBin.SingleTagAppends | hyperplane/navigation_bin.py:101-116 | A single tag not yet shown opens a page with the visible tags and that tag appended at the end. |
| NavigationBin.NavigationBin.constructor | hyperplane/navigation_bin.py:44-64 | A history with one page showing the initial folder or tags, and an empty redo stack. |
| NavigationBin.NavigationBin.NextPage | hyperplane/navigation_bin.py:149-153 | `get-next-page` gives the last element of `next_pages`, and nothing exactly when the list is empty. |
| NavigationBin.NavigationBin.Pushed | hyperplane/navigation_bin.py:123-138 | If the page just pushed is the top of `next_pages`, exactly that entry is popped. Otherwise every next page leaves the view and the list empties. Nothing happens when the list is empty. |
| NavigationBin.NavigationBin.Popped | hyperplane/navigation_bin.py:140-145 | The popped page is appended to `next_pages`. |
| NavigationBin.NavigationBin.Push | hyperplane/navigation_bin.py:120-138 | Pushing a page and running the `pushed` handler keeps the invariant. It either consumes the top of the redo stack or clears it. |
| NavigationBin.PushNextConsistent | hyperplane/navigation_bin.py:123-133 | Pushing the page on top of the redo stack moves it to the view's stack, and the invariant holds afterwards. |
| NavigationBin.PushNewConsistent | hyperplane/navigation_bin.py:123-138 | Pushing any other page empties the redo stack and drops its pages from the view, and the invariant holds afterwards. |
| NavigationBin.NavigationBin.NextTopDiffers | hyperplane/navigation_bin.py:140-153 | Under the invariant, the page that going forward would show differs in location from the visible page. |
| NavigationBin.NavigationBin.Back | hyperplane/navigation_bin.py:140-145 | Going back moves the visible page onto the redo stack and leaves the history line unchanged. The root page is never popped. |
| NavigationBin.NavigationBin.Forward | hyperplane/navigation_bin.py:149-153 | Going forward pushes the top of the redo stack and leaves the history line unchanged. |
| NavigationBin.NavigationBin.NewPage | hyperplane/navigation_bin.py:66-121 | The new state is exactly what the decision chain says, and the invariant is kept. The history line changes exactly when a page is created. |
| NavigationBin.AddPageConsistent | hyperplane/navigation_bin.py:116-120 | A page with a fresh identity, added to the view, keeps the invariant. |
| NavigationBin.NavigationBin.AddPage | hyperplane/navigation_bin.py:116-120 | The new page gets the next identity, is added to the view and keeps the invariant. Both stacks stay as they were. |
| NavigationBin.NavigationBin.ReturnAfterBack | hyperplane/navigation_bin.py:80-86 | Going back and then asking for the location that was visible restores stack, redo stack and page set exactly. |
| PathSegment.ClickTarget | hyperplane/path_segment.py:106-118 | A tag navigates with `tags=[tag]` even when there is a file. An active file segment does nothing, and an inactive one opens its file. |
| PathSegment.MiddleClickTab | hyperplane/path_segment.py:60-66 | The new tab gets the segment's file. It gets `[tag]` exactly when there is a non-empty tag. |
| PathSegment.Segment.constructor | hyperplane/path_segment.py:40-58 | `gfile` is present exactly when the URI is non-empty, and `tags == [tag]`. Without an icon the content is hidden and the label goes on the button; with one it goes in the content. The label reads back as given. |
| PathSegment.Segment.SetActive | hyperplane/path_segment.py:76-79 | The `inactive-segment` class is present exactly when the segment is inactive. |
| PathBar.QueriedBase | hyperplane/path_bar.py:166-201 | For `file` the base is `file://`. Otherwise it is the scheme root when it can be described, else the mount. Otherwise there is no base URI, exactly when the error is logged. |
| PathBar.BuildFileSegments | hyperplane/path_bar.py:163-237 | The loop builds the folder's segment list as specified by `FileSegments`. |
| PathBar.ComponentsShape | hyperplane/path_bar.py:203-211 | There is one segment per non-empty part, in order. Its URI is the base URI followed by the parts up to that part, joined by "/". |
| PathBar.ComponentCaptions | hyperplane/path_bar.py:205-211 | The segment labels are the non-empty parts of the path. |
| PathBar.ComponentsAreNested | hyperplane/path_bar.py:205-211 | Each segment's URI is the previous segment's URI, a "/", and more. |
| PathBar.LastComponentIsLocation | hyperplane/path_bar.py:203-211 | When the path does not end in "/", the last segment points at the location itself. |
| PathBar.HomeSegments | hyperplane/path_bar.py:213-220 | Under the home folder the bar starts with Home, which has the home URI and `user-home-symbolic`. The segments after it are labelled with the path's parts below home. |
| PathBar.HomeShown | hyperplane/path_bar.py:213-220 | Under the home folder, the Home segment replaces the components up to the home folder. |
| PathBar.RootSegment | hyperplane/path_bar.py:221-237 | A local folder outside home starts with the unlabeled drive-root segment `file:///`. |
| PathBar.UnresolvedBaseUri | hyperplane/path_bar.py:195-211 | When neither query succeeds, no base segment is added and every segment URI starts with the text "None". |
| PathBar.SliceFrom | hyperplane/path_bar.py:217 | Python's `s[k:]` for any integer `k`. |
| PathBar.CommonPrefix | hyperplane/path_bar.py:251-263 | The length of the longest common prefix: the lists agree up to it and differ right after it. |
| PathBar.CommonPrefixUnique | hyperplane/path_bar.py:251-263 | A shared prefix that ends at a difference or at an end is the longest one. |
| PathBar.PathBar.constructor | hyperplane/path_bar.py:46-50 | An empty bar in folder mode. |
| PathBar.PathBar.Remove | hyperplane/path_bar.py:60-91 | `remove(n)` pops `min(n, len)` segments from the end. Their separator entries go too, except the first segment's. The active rule holds afterwards. |
| PathBar.PathBar.PopSegments | hyperplane/path_bar.py:62-82 | The popping loop stops at the first segment, whose separator is None. It never pops past the empty list. |
| PathBar.PathBar.SettleActive | hyperplane/path_bar.py:84-91 | In folder mode the last segment becomes active and the one before it inactive. |
| PathBar.PathBar.Append | hyperplane/path_bar.py:93-145 | The new segment is recorded with a separator exactly when the bar was non-empty: "+" in tag mode, "/" otherwise. In folder mode it becomes the only active segment. |
| PathBar.PathBar.Attach | hyperplane/path_bar.py:107-127 | The new segment goes at the end and the separator map follows the position rule. |
| PathBar.PathBar.Purge | hyperplane/path_bar.py:147-153 | `segments` and `separators` become empty. |
| PathBar.PathBar.Update | hyperplane/path_bar.py:155-269 | Afterwards the bar's (URI, tag) list equals the wanted list, and the mode follows the target. The longest run of matching segments keeps its objects; it has none after a mode switch. The segments after it are new and show the wanted labels, icons, URIs and tags. |
| PathBar.PathBar.Reconcile | hyperplane/path_bar.py:247-269 | Trimming the surplus first does not change which run is kept. |
| PathBar.PathBar.Diff | hyperplane/path_bar.py:250-269 | The loop keeps the matching run, removes the rest and appends the remaining wanted segments. |
| PathBar.PathBar.Replace | hyperplane/path_bar.py:265-269 | From the first difference on, the shown segments are replaced by new ones with the wanted labels, icons, URIs and tags. The matching run keeps its objects. |
| PathBar.PathBar.MatchingRun | hyperplane/path_bar.py:251-263 | The matching run is the longest common prefix of the shown and wanted key lists. |
| PathBar.PathBar.AppendAll | hyperplane/path_bar.py:265-269 | The remaining wanted segments are appended in order, as new objects. |
| PathEntry.NewPathText | hyperplane/path_entry.py:53-81 | Non-empty tags give the `//`-delimited text and take precedence over the folder. Neither tags nor folder leaves the text alone. A folder always produces some text. |
| PathEntry.PathText | hyperplane/path_entry.py:73-81 | A path is shown with a trailing separator unless it is the root. |
| PathEntry.LocalFolderText | hyperplane/path_entry.py:65-81 | A local folder's text ends with "/" and is the folder's path with that "/" added, except for the root. |
| PathEntry.Chosen | hyperplane/path_entry.py:159-164 | The chosen tags are exactly the registry tags named in the text. |
| PathEntry.ChosenConcat | hyperplane/path_entry.py:160-164 | The tags are chosen in registry order and with the registry's multiplicity: choosing from two halves of the registry is choosing from each half in turn. |
| PathEntry.TagNamesRoundTrip | hyperplane/path_entry.py:159-164 | Stripping the outer slashes of a tag text and splitting on `//` gives back the tags, when they are non-empty and hold no "/". |
| PathEntry.TagTextRoundTrip | hyperplane/path_entry.py:159-164 | Formatting tags and parsing them back selects the same registry tags as the tags themselves. When all are registered, that is exactly the tags. |
| PathEntry.UrlScheme | hyperplane/path_entry.py:176 | `urlparse(...).scheme` has no upper-case letter. |
| PathEntry.QuoteOutput | hyperplane/path_entry.py:177 | `quote` produces only safe characters and `%`, so never a ":". |
| PathEntry.QuoteSafeText | hyperplane/path_entry.py:177 | `quote` leaves text made of safe characters unchanged. |
| PathEntry.RemovePrefix | hyperplane/path_entry.py:177 | `removeprefix` drops the prefix exactly when the text starts with it. |
| PathEntry.UriKeepsScheme | hyperplane/path_entry.py:174-177 | When the text starts with its scheme as reported, the prefix is kept verbatim. Only the rest is quoted, so no ":" follows the prefix. |
| PathEntry.Activate | hyperplane/path_entry.py:156-200 | Text starting with `//` gives "No such tags" or opens exactly the chosen registry tags. Other text never opens tags. A folder is opened only when GIO says it is a directory. The location tried first is the scheme-prefixed URI for text with "://" and the expanded path otherwise. It is opened when it is a directory. Failing that, the only other folder opened is the quoted text below the visible folder, for text without "://". |
| PathEntry.ActivateFallback | hyperplane/path_entry.py:181-196 | "Unable to find path" appears exactly when the location is not a directory and no directory below the visible folder matches. That fallback is tried only for text without "://". |
| PathEntry.UpperCaseSchemeQuoted | hyperplane/path_entry.py:174-177 | `S://` becomes `s://S%3A//`: the scheme that `urlparse` lower-cased is not removed, so it is quoted after the prefix. |
| PathEntry.RemoveSchemePrefix | hyperplane/path_entry.py:177 | The corrected removal drops the prefix whatever the case of the typed scheme. |
| PathEntry.CorrectedUriKeepsScheme | hyperplane/path_entry.py:174-177 | With the corrected removal, `scheme://rest` becomes the lower-case scheme, `://` and the quoted `rest`. |
| PathEntry.ActivateCorrected | hyperplane/path_entry.py:156-200 | The corrected `__activate` chooses tags as `__activate` does. It opens first the URI with the corrected prefix removal or the expanded path, and otherwise only the quoted text below the visible folder. It opens only directories and non-empty tag lists. |
| PathEntry.UpperCaseSchemeOpened | hyperplane/path_entry.py:174-200 | As written, activating `S://` on a folder opens `s://S%3A//`. |
| PathEntry.CorrectedActivationKeepsScheme | hyperplane/path_entry.py:174-200 | With the corrected removal, activating `scheme://rest` on a folder opens the lower-case scheme, `://` and the quoted `rest`. |
| PathEntry.Suggestion | hyperplane/path_entry.py:109-130 | There is no suggestion exactly when the text starts with `//`, or the completer gives nothing for the text and there is no visible folder or nothing below it. A completion of the text itself is used, unquoted exactly when the text has "://". Otherwise the completion below the visible folder is used, always unquoted. |
| PathEntry.FirstSuggestionNotInserted | hyperplane/path_entry.py:134-144 | On a fresh entry the deletion test always holds, so the first suggestion is only remembered. |
| PathEntry.RepeatedSuggestionNotInserted | hyperplane/path_entry.py:134-144 | The same suggestion twice in a row is not inserted the second time. |
| PathEntry.PathEntry.constructor | hyperplane/path_entry.py:41-46 | `prev_text` and `prev_completion` start empty. |
| PathEntry.PathEntry.NewPath | hyperplane/path_entry.py:44-81 | Without `NewPathText`, or when it equals the current text, nothing changes. Otherwise the text becomes `NewPathText`, and the completion handler that the change sets off then runs on it: it remembers the new text and its suggestion, and may append and select that suggestion, exactly as for `Complete`. |
| PathEntry.PathEntry.Complete | hyperplane/path_entry.py:109-154 | Without a suggestion nothing changes. Otherwise the suggestion and the text are remembered. It is appended and selected from the old end of the text exactly when the change does not look like a deletion. |
| Tags.RemoveFirst | hyperplane/utils/tags.py:37-38 | `list.remove` drops the first occurrence and keeps the order of the rest. An absent tag leaves the list alone. |
| Tags.RemoveEachShrinks | hyperplane/utils/tags.py:34-39 | Removing never adds a tag. A named tag that the list held at most once is gone afterwards. |
| Tags.RemoveEachKeepsAbsent | hyperplane/utils/tags.py:36-38 | An absent tag stays absent. |
| Tags.FileTextRoundTrip | hyperplane/utils/tags.py:44 | Splitting the written text on newlines gives the registry back when it is non-empty and no tag holds a newline. |
| Tags.FileTextEmpty | hyperplane/utils/tags.py:44 | An empty registry reads back as one empty name. |
| Tags.Registry.UpdateTags | hyperplane/utils/tags.py:42-45 | The file holds the newline-joined registry, and `tags-changed` is emitted once. |
| Tags.Registry.AddTags | hyperplane/utils/tags.py:23-31 | Every argument is appended in order, without de-duplication. Then the registry is written. |
| Tags.Registry.RemoveTags | hyperplane/utils/tags.py:34-39 | The first occurrence of each present argument is removed in turn and absent ones are ignored. Then the registry is written even when nothing changed. |
| ItemSorter.Sign | hyperplane/item_sorter.py:163 | The sign is -1, 0 or 1 and agrees with the value. |
| ItemSorter.FromCmp | hyperplane/item_sorter.py:160-165 | The ordering is the sign, negated when reversed, so EQUAL stays EQUAL. |
| ItemSorter.FoldersFirst | hyperplane/item_sorter.py:167-179 | A folder against a file gives SMALLER and the reverse LARGER. Two of a kind give no answer. |
| ItemSorter.Compare | hyperplane/item_sorter.py:41-158 | The result is an ordering, and EQUAL when either info is missing. |
| ItemSorter.TrashByDeletionDate | hyperplane/item_sorter.py:61-77 | Top-level trash items sort newest deletion first, and are EQUAL when either date is missing. |
| ItemSorter.FoldersBeforeFiles | hyperplane/item_sorter.py:104-106 | With folders-before-files on, a folder precedes a file whatever the key and direction. |
| ItemSorter.DotFilesLast | hyperplane/item_sorter.py:111-116 | Once folders are settled, a dot-file follows any other name whatever the key and direction. |
| ItemSorter.SizeOrder | hyperplane/item_sorter.py:136-158 | By size, folders come first. Equal non-zero sizes are EQUAL and larger files come first. A zero size falls back to the names. |
| ItemSorter.ReversalFlipsKey | hyperplane/item_sorter.py:160-165 | Reversing negates the key comparison and leaves the folder and dot-file rules alone. |
| ItemSorter.Antisymmetric | hyperplane/item_sorter.py:49-53 | For two items of the same kind, swapping them negates the result, given an antisymmetric collation. |
| ItemSorter.GeneralAntisymmetric | hyperplane/item_sorter.py:104-158 | The rules after the trash and recent cases are antisymmetric. |
| ItemSorter.Reflexive | hyperplane/item_sorter.py:51 | Every item is EQUAL to itself. |
| ItemSorter.ModifiedNotTransitive | hyperplane/item_sorter.py:118-158 | Three files a < b < c where a > c: an undated file falls back to names between two dated ones. |
| ItemSorter.KeyOrderPreorder | hyperplane/item_sorter.py:118-158 | The corrected key comparison, with items lacking the key placed after those that have it, is a total preorder. |
| ItemSorter.GeneralOrderPreorder | hyperplane/item_sorter.py:104-158 | The corrected comparison is a total preorder: reflexive, antisymmetric in sign, and transitive. |
| ItemSorter.CompareCorrected | hyperplane/item_sorter.py:58-158 | The corrected `do_compare` is EQUAL for a missing info and the corrected order for items outside the trash and recent rules. |
| ItemSorter.CorrectedTransitive | hyperplane/item_sorter.py:53 | Among items outside the trash and recent rules, the corrected comparison is transitive. |
| ItemSorter.CorrectedAgreesWithKeys | hyperplane/item_sorter.py:104-158 | When both items have the sort key, the corrected comparison equals the original. |
| EditableRow.Hidden | hyperplane/editable_row.py:147-157 | The value an unchecked row writes ends with the identifier and holds it exactly once. Every other entry keeps its count. |
| EditableRow.HiddenIdempotent | hyperplane/editable_row.py:147-157 | Hiding twice writes what hiding once wrote. |
| EditableRow.ShowAfterHide | hyperplane/editable_row.py:131-157 | Showing a row after hiding it leaves the list that showing it alone leaves. |
| EditableRow.DropAll | hyperplane/editable_row.py:132-141 | The loop keeps the other entries in order. It reports whether the identifier was there. |
| EditableRow.Row.constructor | hyperplane/editable_row.py:43-69 | The row starts editable with an active check, and the identifier goes through its setter. |
| EditableRow.Row.SetIdentifier | hyperplane/editable_row.py:76-83 | An empty or missing identifier is ignored. Any other is stored and the check follows the setting. |
| EditableRow.Row.SetActive | hyperplane/editable_row.py:161-179 | The check is active exactly when the identifier is not hidden. Outside edit mode the row is visible exactly when the check is active. |
| EditableRow.Row.StartEdit | hyperplane/editable_row.py:112-118 | The row shows, the check's sensitivity is `editable`, and the check is revealed. |
| EditableRow.Row.EndEdit | hyperplane/editable_row.py:120-159 | The check is no longer revealed and its revealer ends hidden. A checked row removes every occurrence and writes only when there was one. An unchecked row hides itself and writes the list with the identifier once, at the end. |
| Undo.Calls | hyperplane/utils/undo.py:43-68 | The calls an entry makes: remove each copy, `move(dst, src)` for each pair, restore the old name, restore each trashed item. |
| Undo.Handled | hyperplane/utils/undo.py:43-68 | Each kind handles its own failures with its debug message. Restoring from the trash handles none. |
| Undo.RaisedIffUnhandled | hyperplane/utils/undo.py:43-68 | The undo raises exactly when some call fails in a way its kind does not handle. |
| Undo.EveryCallMade | hyperplane/utils/undo.py:45-64 | A handled failure is logged and skipped: when nothing raises, every call is made, in order. |
| Undo.TrashStopsAtFailure | hyperplane/utils/undo.py:66-68 | Restoring from the trash stops at the first failure. |
| Undo.Target | hyperplane/utils/undo.py:36-41 | The target key is the toast when there is one, else the newest key. |
| Undo.PopItem | hyperplane/utils/undo.py:73 | `popitem` removes exactly one key, the newest. |
| Undo.UndoneEntryKept | hyperplane/utils/undo.py:70-73 | Undoing the older of two toasts leaves its entry and drops the newer, which was never undone. |
| Undo.CorrectedRemovesUndone | hyperplane/utils/undo.py:73 | The corrected removal drops exactly the undone key and keeps the rest. Without a toast it is `popitem`. |
| Undo.Queue.Perform | hyperplane/utils/undo.py:43-68 | The dispatch loop makes the calls of the entry, logging handled failures and stopping at the first unhandled one. |
| Undo.MakeCalls | hyperplane/utils/undo.py:43-68 | The loop over an entry's calls produces exactly the effects and the raised failure of the run of those calls: each call made, a handled failure followed by its debug message, the first unhandled failure raised and nothing after it. |
| Undo.Queue.Apply | hyperplane/utils/undo.py:33-71 | An empty queue does nothing. A toast that is no key raises `KeyError`. An unhandled failure stops before the dismissal. Otherwise the toast is dismissed. |
| Undo.Queue.Undo | hyperplane/utils/undo.py:30-73 | The undo as written: after a complete undo the queue loses exactly its newest entry, whichever was undone. |
| Undo.Queue.UndoCorrected | hyperplane/utils/undo.py:30-73 | The corrected undo: after a complete undo the queue loses exactly the undone entry and keeps distinct keys. |
| Item.StemAndSuffix | hyperplane/item.py:253-254 | `stem + suffix` is the name. A suffix is a dot and at least one more character, with no other dot, after a non-empty stem. |
| Item.Executable | hyperplane/item.py:221-224 | Being executable implies not being a folder. A file is executable exactly when it may be executed. |
| Item.Parts | hyperplane/item.py:225-254 | Folders and the types whose dot starts no extension keep the full name and get no extension. Other files get the pathlib stem and a badge that is the suffix without its dot, upper-cased, and empty when there is no suffix. |
| Item.BadgeShape | hyperplane/item.py:249-254 | A badge has no dot and no lower-case letter, and the stem with the suffix gives back the name. |
| Item.Shown | hyperplane/item.py:282 | The label is the stem at a non-zero zoom level and the full name at zero. |
| Item.Extra | hyperplane/item.py:211-215 | The extra tags are exactly the parts that are not page tags. |
| Item.ExtraConcat | hyperplane/item.py:211-215 | The parts keep their order and repetitions: filtering two runs of parts is filtering each run in turn. |
| Item.ExtraOne | hyperplane/item.py:211-215 | A single part is kept exactly when it is not a page tag. |
| Item.AdditionalTags | hyperplane/item.py:204-219 | Nothing is set without page tags or a parent path. `relative_to` raises exactly when the parent is not under home. |
| Item.AdditionalTagsAreExtra | hyperplane/item.py:211-219 | The label joins, with ", ", the folders between home and the file that are not page tags. Nothing is set when there are none. |
| Item.MenuItems | hyperplane/item.py:669-697 | `execute-file` is offered exactly for executables, the new-tab entries exactly for folders. In the trash, rename and trash are removed. Restore and delete are added exactly at the top level of the trash. |
| Item.ExecutableIsNoFolder | hyperplane/item.py:681-686 | A menu that offers `execute-file` never offers opening in a new tab or window. |
| Item.ZoomGrows | hyperplane/item.py:572-640 | Zooming in never shrinks the thumbnail, the folder previews, the icon, the box margin or the play button. |
| Item.PlayButtonFits | hyperplane/item.py:578-599 | The play button with its margins fits inside the thumbnail at every zoom level. |
| Item.Circular | hyperplane/item.py:548-554 | The icon is circular only at zoom level 0, and there exactly when asked. |
| Item.Item.constructor | hyperplane/item.py:84-105 | Zoom level 1 and no names. Then comes a zoom to the saved level, which applies only on an attached page. |
| Item.Item.SetThumbnail | hyperplane/item.py:188-190 | The paintable is stored and nothing else changes. |
| Item.Item.SetCircular | hyperplane/item.py:548-554 | The circular icon and the thumbnail are never both visible. |
| Item.Item.Zoom | hyperplane/item.py:556-640 | An orphaned page changes nothing. Otherwise it sets the level, the circular icon for an item without a thumbnail and the thumbnail for the others, the label, the badge opacity and the level's layout. The names, badge text, kind and tags label stay. |
| Item.Item.Bind | hyperplane/item.py:192-283 | The file's URI and scheme are taken from the info first, on both paths. A parent outside home on a tags page then raises, and every other field stays. Otherwise the additional tags are set when there are any, and the names, kind and badge are bound. |
| Item.Item.BindFile | hyperplane/item.py:221-224 | The item is bound and its URI stays, it is a folder exactly when the content type is a directory, and executable only when it is not. |
| Item.Item.BindNames | hyperplane/item.py:225-283 | The full name, stem, badge, shown label and badge visibility follow the file's info, and the kind flags stay as they were. |
| Item.Item.RightClick | hyperplane/item.py:669-697 | The page's menu set is the one `MenuItems` states for this file. |

## Left out

- Animation, timers and idle callbacks are not modelled. That covers revealer transitions, the delayed hiding of a row's check revealer, the `idle_add` visibility updates in `item.py`, focus and scrolling. Each is taken to have happened by the time it matters.
- The contents of `segments_box` are not modelled. Its child removal compares a bound method with a widget and never removes anything, so the bar is the `segments` and `separators` fields only.
- `remove` leaves a stale key in `separators` when `remove(n)` reaches the first segment. It is modelled as written and stated by `PathBar.PathBar.Remove`.
- `PathBar.PathBar.Diff`: the loop's `append` flag is written as its two phases, the matching run and then remove-and-append. This is the same sequence of `remove` and `append` calls.
- `PathBar.PathBar.Update`: calling `update` with neither a file nor tags raises `UnboundLocalError`. It is excluded by a precondition.
- GIO answers are inputs:
  - file information, the scheme-root and mount queries
  - `get_path`, `query_file_type`
  - the completer's suffix
  - `unquote` and `expanduser`
- The file operations `rm`, `move`, `restore` are inputs, and so is the signature `restore` takes. Their helper module is not part of this model.
- `PathBar.PathParts` follows `Path.parts` for plain absolute and relative paths. It does not fold "." components or a leading "//".
- `PathEntry.PathEntry.Complete`: the handler is one step. Its `set_text` (path_entry.py:153) makes GTK emit "changed" again while the handler runs, and that nested run of `__complete` on the new text is not modelled. It can overwrite `prev_text`, `prev_completion` and the text before `select_region` (path_entry.py:154).
- `PathEntry.PathEntry.NewPath`: "changed" is taken to be emitted once when `set_text` changes the text, and not at all when the text is the same. The nested runs that the handler's own `set_text` sets off are those of the `Complete` line above.
- `PathEntry.UrlScheme` does not strip the control characters and spaces that `urlparse` removes first.
- Case mapping is ASCII only, both for a scheme's lower-casing and for the badge's upper-casing. Non-ASCII letters keep their case.
- `PathSegment.Segment.constructor`: `_active` is never initialised in `path_segment.py`, and the property's default is true. The model starts every segment active.
- `ItemSorter`: the order of names and content types is `strcoll`, a parameter. Dates are integers, and the recent manager's lookup either succeeds for both items or is absent.
- The rules for top-level trash and recent items are EQUAL when a date is missing. They look only at the first item, so they are not transitive either. `ItemSorter.CompareCorrected` keeps them as written.
- The tag registry's reorder operation and a change-strictness value on `tags-changed` do not exist in `utils/tags.py`. `tags-changed` carries nothing, and the model follows the code.
- The user toggling a row's check button is not modelled. The button's state is a field that the operations read.
- Thumbnails, folder-children enumeration, drag and drop, and the list or grid view setup of an item are not modelled. Whether a thumbnail exists is a field set through `Item.Item.SetThumbnail`.
- `Item.Item.Bind`: the thumbnail callback that a completed `bind` runs (item.py:257-280 and 481-502) sets the circular icon and the thumbnail's visibility. It is not modelled, so after a completed bind those two fields are not stated.
- `Item.FinalName` takes the last non-empty component of a name. It does not drop "." components as pathlib does.

## Findings

| source | as written | input that shows it | evidently intended | confidence | as-written member | corrected member |
|---|---|---|---|---|---|---|
| hyperplane/item_sorter.py:118-158 | An item that lacks the sort key falls back to comparing names. It is compared against items that have it. | By modification date: a (dated 1), bb (undated), ccc (dated 2) give a < bb < ccc but a > ccc | A partial order, as the method's comment says: items without the key grouped after those with it | high; not executed | ItemSorter.ModifiedNotTransitive | ItemSorter.CorrectedTransitive |
| hyperplane/utils/undo.py:73 | `popitem()` removes the newest entry, whichever toast was undone | queue keys [1, 2], undo from toast 1 | The undone entry is removed | high; not executed | Undo.UndoneEntryKept | Undo.CorrectedRemovesUndone |
| hyperplane/path_entry.py:174-177 | `urlparse` lower-cases the scheme, so `removeprefix` misses a scheme typed in upper case and the scheme is quoted again | text `S://` opens `s://S%3A//` | The scheme is kept and only the rest is quoted | medium; not executed | PathEntry.UpperCaseSchemeOpened | PathEntry.CorrectedActivationKeepsScheme |
