# WikiCheck outline editor — a Dafny model

WikiCheck is a checklist app. It keeps each list as a flat sequence of
items (tasks and h1/h2/h3 headings). An item's nesting comes only from its
indent (0 to 6), and a collapsed item hides the deeper items that follow it.
This project models the app's logic in Dafny and proves properties of that
model:

- the editing page (`ChecklistPage`);
- one outline row (`ChecklistNode`);
- the floating toolbar;
- the overview with its category tabs (`Home`);
- the data service around the record store.

Modules and what each covers:

- `Types` — the record types of src/models/types.ts: the item and checklist records, item updates, and the merge of an update into an item.
- `Outline` — the item-sequence logic of the editing page (src/pages/ChecklistPage.tsx): the visibility/has-children pass, and the structural edits (update, insert, delete, uncheck all, toggle collapse, indent clamping).
  - The pass is a method over arrays that pops and pushes a stack of collapsed indents.
  - It is proved equal to a functional replay of that stack.
  - The replay is then characterised exactly: the stack never holds more than one entry, and an item is hidden exactly when an earlier visible, collapsed item with children has every following item up to it indented strictly deeper.
- `Editor` — the stateful side of the same page: the editing session as a class: title, items, focused row.
  - Handlers: key presses, typing, check boxes, collapse toggles, the add buttons, the toolbar.
  - Invariant: the items are never empty and the focus is always on an existing row.
  - Also the debounced autosave as a single pending slot, without time.
- `NodeEditing` — one row (src/components/ChecklistNode.tsx): the live markdown retyping of `# `, `## ` and `### `, and what a row shows.
- `Toolbar` — src/components/FloatingToolbar.tsx: the type buttons (H1/H2 toggle, Task always sets task) and the press dispatch.
- `Home` — the overview (src/pages/Home.tsx): tab derivation, adding and deleting tabs, moving a list, drag reordering, renumbering, and the overview screen as a class.
  - Tab derivation is a loop over the lists. It is proved to produce the default tab first, no duplicates, exactly the derived names, and the rest in ascending order.
  - Only one sequence satisfies that description.
- `DataService` — src/services/data.ts: the record store (a sequence of raw records) and its operations.
  - Normalisation and the stable sort by order. The listing is proved to be the one stable sort of the normalised records.
  - The next order, reading and decoding, and updating with the timestamps stripped.
  - The locally stored category names, and the initial item of a new outline.
- `Strings`, `SeqUtil` — shared helpers that match no single source file: the string ordering of JavaScript's default `sort`, JavaScript's `trim`, and the append-if-absent and filter-out steps used on category lists.

Two facts about the code worth stating plainly:

- A new checklist gets order `max(0, existing orders) + 1`, so 1 on an empty store (`DataService.NextOrder`).
- A collapsed item hides the items after it only while they are indented **strictly deeper** than it. Popping happens when the top of the stack is at least the item's indent, so an item at the same or a smaller indent is visible again (`Outline.HiddenIff`).

## Model

| member | source | states |
|---|---|---|
| Types.Merge | src/pages/ChecklistPage.tsx:86 | each field present in the update replaces the item's field; every absent field keeps its old value |
| Outline.ComputeVisibility | src/pages/ChecklistPage.tsx:60-82 | both arrays are as long as the items; `visible[i]` is the replayed collapse-stack verdict for item i; `hasChildren[i]` holds exactly when item i+1 exists and is strictly deeper; the first item is visible and the last has no children |
| Outline.StackAtMostOne | src/pages/ChecklistPage.tsx:67-78 | the collapse stack never holds more than one entry |
| Outline.StackShape | src/pages/ChecklistPage.tsx:63-79 | when the pass reaches an item, the stack is empty exactly when no collapsed region is open, and otherwise holds the indent of the item that opened it |
| Outline.HiddenIff | src/pages/ChecklistPage.tsx:65-79 | item i is hidden exactly when some earlier visible, collapsed item j with children has every item j+1..i strictly deeper than itself |
| Outline.NothingCollapsedAllVisible | src/pages/ChecklistPage.tsx:65-79 | with no collapsed item, every item is visible |
| Outline.CollapsedHidesRun | src/pages/ChecklistPage.tsx:70-78 | a visible collapsed item with children hides every item of the strictly deeper run after it |
| Outline.UpdateAt | src/pages/ChecklistPage.tsx:84-88 | the length is kept; slot `index` becomes the merged item; every other slot is unchanged |
| Outline.InsertAfter | src/pages/ChecklistPage.tsx:90-103 | one more item; the prefix and suffix are kept around the new slot a+1; the focus moves to a+1; a task takes the previous item's indent (0 if none); a section is an h1 with the placeholder text at indent 0 |
| Outline.DeleteAt | src/pages/ChecklistPage.tsx:105-111 | with at most one item, nothing changes; otherwise exactly slot i is removed and the focus becomes max(0, i-1); the result is never empty and the focus is in range |
| Outline.UncheckAll | src/pages/ChecklistPage.tsx:129-135 | every item becomes unchecked; length, order and every other field are kept |
| Outline.ToggleCollapse | src/pages/ChecklistPage.tsx:137-139 | flips only `collapsed` of one slot (absent reads as false) |
| Outline.Indented | src/pages/ChecklistPage.tsx:122 | one level deeper, never above 6; exactly one deeper below 6 |
| Outline.Outdented | src/pages/ChecklistPage.tsx:124 | one level shallower, never below 0; exactly one shallower above 0 |
| Outline.IndentClamping | src/pages/ChecklistPage.tsx:122-124 | indent and outdent keep [0, 6]; they change nothing at the bounds and undo each other inside them |
| Outline.InsertThenDelete | src/pages/ChecklistPage.tsx:90-111 | deleting the slot just inserted restores the original items |
| Outline.UncheckAllIdempotent | src/pages/ChecklistPage.tsx:129-135 | unchecking twice is the same as unchecking once |
| Outline.ToggleCollapseTwice | src/pages/ChecklistPage.tsx:137-139 | toggling the same row twice restores the items |
| Editor.KeyDown | src/pages/ChecklistPage.tsx:113-127 | Enter inserts a task after the row; Backspace deletes only an empty row; Tab/Shift+Tab set the clamped indent; exactly these keys are consumed; items stay non-empty and the focus stays in range |
| Editor.TabKeepsIndentInRange | src/pages/ChecklistPage.tsx:120-126 | Tab keeps the row's indent in [0, 6], touches no other field, and is a no-op at 6 (Shift+Tab at 0) |
| Editor.StartItems | src/pages/ChecklistPage.tsx:28 | loaded items are kept when there are some; otherwise one initial item is used; never empty |
| Editor.Session.Open | src/pages/ChecklistPage.tsx:25-31 | a found checklist opens with its title and non-empty items, and with no focus |
| Editor.Session.SetTitle | src/pages/ChecklistPage.tsx:174 | only the title changes |
| Editor.Session.Focus | src/pages/ChecklistPage.tsx:188 | the focus moves to an existing row; nothing else changes |
| Editor.Session.Change | src/pages/ChecklistPage.tsx:84-88 | the items become `UpdateAt` of the old items; focus and title are kept |
| Editor.Session.TypeText | src/components/ChecklistNode.tsx:47-65 | typing applies the single update `HandleChange` emits for the row |
| Editor.Session.ClickCheckbox | src/components/ChecklistNode.tsx:114 | the row's check mark flips |
| Editor.Session.Apply | src/pages/ChecklistPage.tsx:99-110 | an edit's items replace the old ones; its focus replaces the old focus when it has one |
| Editor.Session.KeyPress | src/pages/ChecklistPage.tsx:113-127 | the session takes the items and focus of `KeyDown`; the session invariant is kept |
| Editor.Session.UncheckEverything | src/pages/ChecklistPage.tsx:129-135 | the items become `UncheckAll` of the old items |
| Editor.Session.ToggleCollapseAt | src/pages/ChecklistPage.tsx:137-139 | the items become `ToggleCollapse` of the old items |
| Editor.Session.AddAtEnd | src/pages/ChecklistPage.tsx:197-212 | a task or a section is inserted after the last row and focused |
| Editor.Session.ToolbarPress | src/pages/ChecklistPage.tsx:215-225 | without focus nothing happens; otherwise the focused row is indented/outdented (clamped), retyped or deleted as the pressed button says |
| Editor.Autosave.constructor | src/pages/ChecklistPage.tsx:16-19 | no save pending, not saving |
| Editor.Autosave.Schedule | src/pages/ChecklistPage.tsx:37-58 | the newest title and items replace any pending snapshot; the saving flag is raised |
| Editor.Autosave.Fire | src/pages/ChecklistPage.tsx:42-47 | the pending snapshot is sent and the slot empties |
| Editor.Autosave.Settle | src/pages/ChecklistPage.tsx:48-52 | the saving flag is lowered, whether the save succeeded or failed |
| NodeEditing.HandleChange | src/components/ChecklistNode.tsx:47-65 | a heading trigger for another level gives empty text with that type; any other value (including the node's own trigger) is stored verbatim with the type unchanged; never touches id, indent, checked or collapsed |
| NodeEditing.HashSpaceRetypes | src/components/ChecklistNode.tsx:51-64 | `# ` makes a non-h1 an empty h1, and is kept as text on an h1 |
| NodeEditing.ChangeKeepsStructure | src/components/ChecklistNode.tsx:47-65 | after a change, id, indent, check mark and collapse flag are kept; the text is the typed value, or empty with a new heading type |
| NodeEditing.Placeholder | src/components/ChecklistNode.tsx:83-88 | the hint of an empty row, one per type, each a non-empty phrase ending in an ellipsis |
| NodeEditing.PlaceholderDistinct | src/components/ChecklistNode.tsx:83-88 | two types share a hint only when they are the same type |
| NodeEditing.Render | src/components/ChecklistNode.tsx:67-138 | an invisible row renders nothing; a check box exactly for tasks; a collapse toggle exactly with children; struck through exactly when a checked task; 24 px per indent level |
| NodeEditing.CheckboxClick | src/components/ChecklistNode.tsx:114 | the click flips `checked` and nothing else |
| NodeEditing.CheckboxTwice | src/components/ChecklistNode.tsx:114 | two clicks restore the item |
| Toolbar.TypeFor | src/components/FloatingToolbar.tsx:38-55 | H1 gives task exactly on an h1 (else h1); H2 gives task exactly on an h2 (else h2); Task always gives task |
| Toolbar.Press | src/components/FloatingToolbar.tsx:22-61 | an invisible toolbar produces nothing; otherwise each button produces its action |
| Toolbar.Highlighted | src/components/FloatingToolbar.tsx:40-52 | only a type button can be shown active (H1 on an h1, H2 on an h2, Task on a task) |
| Toolbar.OneHighlighted | src/components/FloatingToolbar.tsx:40-52 | at most one type button is active at a time, and none exactly on an h3 row |
| Toolbar.HeadingButtonTwice | src/components/FloatingToolbar.tsx:39-45 | pressing H1 (or H2) twice returns to the starting type if it was that level, else to task |
| Toolbar.TaskIdempotentAndNoH3 | src/components/FloatingToolbar.tsx:38-55 | Task is idempotent; from h3, H1 gives h1 and H2 gives h2 |
| Toolbar.ToggleIffHighlighted | src/components/FloatingToolbar.tsx:38-49 | a heading button toggles back to task exactly when it is shown active |
| DataService.Normalize | src/services/data.ts:32-36 | a missing or empty category becomes 'メイン', a missing order becomes 0; the other fields are kept |
| DataService.NormalizeAll | src/services/data.ts:32-36 | one normalised checklist per stored record, position by position |
| DataService.InsertKeepsSorted | src/services/data.ts:38 | inserting into a sequence sorted by order keeps it sorted |
| DataService.SortByOrder | src/services/data.ts:38 | the result is sorted by ascending order and is a permutation of the input |
| DataService.SortStable | src/services/data.ts:38 | for every order value, the records with it keep their relative order |
| DataService.StableSortUnique | src/services/data.ts:38 | two sequences that are sorted by order and agree on the records of every order value are equal |
| DataService.SortKeepsSorted | src/services/data.ts:38 | a sequence already sorted by order is returned unchanged |
| DataService.ListChecklists | src/services/data.ts:26-39 | as many records as stored; normalised; sorted by order; a permutation; stable; no empty category |
| DataService.ListingIsTheStableSort | src/services/data.ts:26-39 | any sorted, stable arrangement of the normalised records equals the listing |
| DataService.MaxOrderFrom | src/services/data.ts:63 | the fold is at least its start value and every order, and is one of them |
| DataService.NextOrder | src/services/data.ts:62-70 | the new order is at least 1, above every existing order, and exactly one above the largest (or 1) |
| DataService.CreateChecklist | src/services/data.ts:60-78 | the store gains one record at the end, with the title, the encoded items, the category ('メイン' if empty), both timestamps set to the creation time, and exactly the next order (`NextOrder` of the listing), which is above all others |
| DataService.Find | src/services/data.ts:42 | nothing exactly when no record has the id; otherwise the first record with it |
| DataService.Decode | src/services/data.ts:45-50 | a two-case definitional helper with the text format left abstract: encoded items come back as encoded; unparsable content yields no items |
| DataService.GetChecklist | src/services/data.ts:41-58 | nothing exactly for an unknown id; otherwise the first record with the id, normalised: its title, decoded items, category ('メイン' if missing or empty), order (0 if missing) and both timestamps |
| DataService.Strip | src/services/data.ts:82 | title, content, category and order are forwarded as given; the timestamps have no place in what is sent |
| DataService.ApplyUpdate | src/services/data.ts:82-87 | the given fields replace the record's; id and timestamps are kept |
| DataService.UpdateChecklist | src/services/data.ts:80-96 | fails ("Update failed") exactly when no record has the id; otherwise only that record changes, and no timestamp changes |
| DataService.UpdateKeepsTimestamps | src/services/data.ts:82 | the updated record keeps its createdAt and updatedAt whatever the patch carries |
| DataService.ReassignToMain | src/services/data.ts:136-144 | every record whose normalised category is the name moves to 'メイン'; the others are unchanged; none is left in the name |
| DataService.CategoryStorage.constructor | src/services/data.ts:14-17 | the stored value, possibly nothing |
| DataService.CategoryStorage.Categories | src/services/data.ts:14-17 | with nothing stored, the names are just 'メイン' |
| DataService.CategoryStorage.AddCategory | src/services/data.ts:120-128 | an absent name is appended and stored; a present one changes nothing |
| DataService.CategoryStorage.DeleteCategory | src/services/data.ts:130-147 | every occurrence of the name is removed and stored, and the records are reassigned to 'メイン' |
| DataService.GenerateInitialItem | src/services/data.ts:149-156 | the fresh id, empty text, unchecked, a task, indent 0, not collapsed |
| SeqUtil.AppendIfAbsent | src/services/data.ts:122-127 | the name is present afterwards; nothing changes if it was there, else it is appended; duplicate-freedom is kept |
| SeqUtil.Without | src/services/data.ts:132 | every occurrence of the name is removed; every other name is still present; nothing changes when the name is absent; duplicate-freedom is kept |
| SeqUtil.WithoutAppend | src/services/data.ts:132 | removal works piecewise over a concatenation, so the kept names stay in their order |
| SeqUtil.WithoutSingleton | src/services/data.ts:132 | one name is kept exactly when it is not the removed one; with WithoutAppend this fixes the result as a filter |
| Strings.Sort | src/pages/Home.tsx:133 | the default string sort: ascending and a permutation |
| Strings.Trim | src/pages/Home.tsx:144 | the result is an infix of the input with only white space around it, and it neither starts nor ends with white space |
| Strings.TrimEmptyIff | src/pages/Home.tsx:144-145 | trimming gives the empty string exactly when the input is all white space |
| Strings.TrimIdempotent | src/pages/Home.tsx:144 | trimming twice is trimming once |
| Home.DeriveCategories | src/pages/Home.tsx:126-136 | 'メイン' first; no duplicates; exactly 'メイン', every list's non-empty category and the extra name; the rest strictly ascending |
| Home.Arrange | src/pages/Home.tsx:133-134 | 'メイン' first, the other names sorted after it once each |
| Home.TabsUnique | src/pages/Home.tsx:126-136 | only one tab sequence satisfies that description, whatever order the lists come in |
| Home.InTab | src/pages/Home.tsx:230 | the filter of the lists by category is never longer than the lists |
| Home.InTabAppend | src/pages/Home.tsx:269 | the filter works piecewise over a concatenation, so the kept lists stay in their order |
| Home.InTabSingleton | src/pages/Home.tsx:269 | one list is kept exactly when its category is the tab; with InTabAppend this fixes the result as a filter |
| Home.InTabMembers | src/pages/Home.tsx:269 | the displayed lists are exactly those whose category is the active tab |
| Home.FindIndex | src/pages/Home.tsx:231-239 | -1 exactly when no list has the id, else the first position with it |
| Home.FindInTab | src/pages/Home.tsx:230-234 | searching the active tab's lists finds the id exactly when a list of that tab has it |
| Home.Relocate | src/pages/Home.tsx:241-243 | the two splices form a permutation; the taken element lands at the target position; the others keep their order; positions outside the moved span are unchanged |
| Home.DragOver | src/pages/Home.tsx:226-246 | a no-op without a dragged id, over itself, or when either list is outside the active tab; otherwise the dragged list is moved to the target's original global position |
| Home.Renumber | src/pages/Home.tsx:250-253 | each list's order becomes its position and nothing else changes |
| Home.RenumberSurvivesListing | src/pages/Home.tsx:248-255 | sorting the renumbered lists by order returns them unchanged |
| Home.MoveCategoryToMain | src/pages/Home.tsx:173-174 | the lists of the category move to 'メイン'; the others are untouched |
| Home.MoveList | src/pages/Home.tsx:204-206 | only the chosen list's category changes |
| Home.MovedListShownInTarget | src/pages/Home.tsx:204-206 | after a move, the list is displayed under the target tab and under no other |
| Home.HomeScreen.constructor | src/pages/Home.tsx:9-23 | no lists; tabs are just 'メイン', which is active; no dialog, move or drag in progress |
| Home.HomeScreen.Displayed | src/pages/Home.tsx:269 | exactly the lists of the active tab |
| Home.HomeScreen.LoadData | src/pages/Home.tsx:38-66 | the lists are replaced and the tabs rederived; an active tab that is no longer derived falls back to 'メイン' |
| Home.HomeScreen.StartAddCategory | src/pages/Home.tsx:138-141 | the name input opens, empty |
| Home.HomeScreen.TypeTabName | src/pages/Home.tsx:325 | the typed name is kept |
| Home.HomeScreen.CancelAddCategory | src/pages/Home.tsx:159-161 | the input closes; nothing else changes |
| Home.HomeScreen.ConfirmAddCategory | src/pages/Home.tsx:143-157 | a blank trimmed name changes nothing; otherwise it is appended if absent and becomes active; the input closes |
| Home.HomeScreen.DeleteCategory | src/pages/Home.tsx:164-188 | 'メイン' or an unconfirmed deletion changes nothing; otherwise the tab's lists move to 'メイン', the tabs are rederived without it, and 'メイン' becomes active |
| Home.HomeScreen.OpenMove | src/pages/Home.tsx:191-194 | the list to move is chosen |
| Home.HomeScreen.CloseMove | src/pages/Home.tsx:196-198 | no list is chosen |
| Home.HomeScreen.ExecuteMove | src/pages/Home.tsx:200-218 | without a chosen list nothing changes; otherwise it takes the target category, the tabs are rederived and the dialog closes |
| Home.HomeScreen.DragStart | src/pages/Home.tsx:221-224 | the dragged id is recorded |
| Home.HomeScreen.DragOverRow | src/pages/Home.tsx:226-246 | the lists become the `DragOver` result, a permutation of the old lists |
| Home.HomeScreen.DragEnd | src/pages/Home.tsx:248-255 | the drag ends; the renumbered lists are what gets persisted; the screen's own lists keep their orders |

## Left out

- JSON encoding of item content is treated as opaque. Stored content is either an encoded item sequence or unparsable text (`Content`); no round trip through a text format is modelled.
- The Amplify record store is a sequence of records passed in and returned; its network calls, failures and parallel `Promise.all` updates are not modelled. Not modelled on that account:
  - a create that returns nothing;
  - a listing that fails;
  - the reload after a failed move or tab deletion;
  - the per-record writes of `reorderChecklists`. `HomeScreen.DragEnd` returns the renumbered lists it would write.
- `deleteChecklist` and `getCategories`, and the overview's `handleCreate`, `handleDelete` and `handleDuplicate`, are outside the modelled core.
- Record ids are assumed unique. `DataService.Find` and `DataService.UpdateChecklist` act on the first record with the id.
- Fresh ids (`uuidv4`), the backend's new record id and its timestamps are parameters.
- The record store's own change of `updatedAt` on an update is not modelled.
- The 2-second autosave debounce has no time in the model. `Autosave` keeps only the pending-slot and saving-flag behaviour.
- The `loading` flag and navigation back to the overview when a checklist is missing are not modelled. `Session.Open` is only for a found checklist.
- `window.confirm` is a `confirmed` parameter. `alert`, date formatting and all styling, focus effects and textarea resizing are left out.
- JavaScript's default `sort()` compares UTF-16 code units. The model compares the characters of the string in order, which differs only outside the Basic Multilingual Plane.
- Orders are mathematical integers. `NaN` and fractional orders, which `|| 0` and the subtraction comparator would treat specially, are not modelled.
- A `Partial<Checklist>` patch could also carry an `id`. `ChecklistPatch` has no `id` field.
- `Outline.PopClosed`: states only that popping never lengthens the stack; its exact effect is captured through `Outline.StackShape`.
