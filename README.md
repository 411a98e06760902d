# Board and section editing rules of the custom-container demo

The demo builds a "board of sections" container in ten steps (V1–V10). Apart
from rendering, the section views make a few small decisions, and this project
states them in Dafny and proves properties about them:

- **Collapse/expand.** A section with an optional `maxItemCount` shows only its
  first `maxItemCount` items while collapsed. A "More"/"Hide" button appears
  only when items are hidden, and pressing it flips `isExpanded` (V3–V5, V8, V10).
- **Drag and drop.** Starting a drag records the dragged subview's id. A drop
  looks up the first offsets of the dragged id and the target id in the full,
  untruncated content. It is refused when the dragged id is gone. Otherwise it
  runs exactly one handler: the target card's own `movable` if it has one,
  else the board's `onDrop`. The binding board's `onDrop` calls
  `move(fromOffsets: [from], toOffset: to > from ? to + 1 : to)`, so the dragged
  row lands on the target's offset (V6–V10).
- **Delete.** A card gets a delete closure only when it is not delete-disabled,
  some delete handler exists and its id is found. The card's own `deletable`
  wins over the board's `onDelete`. The binding board's `onDelete` removes
  exactly the row at that offset (V9, V10).
- **Edit-action gating.** `editActions` decides which board handlers a binding
  board supplies (V9, V10).

Layout of the project:

- `offsets.dfy` (`Offsets`): first-index lookup, single-offset `remove` and
  `move` (the moved element is inserted before the element originally at the
  destination offset), and their properties.
- `collapse.dfy` (`Collapse`): the visibility rule, the toggle button, and the
  collapse state of the V3–V5 sections. Those sections have no drag, delete or
  handler state, so they are a class of their own. Both section classes read
  their visible items and button from the same two functions, `VisibleItems` and
  `ToggleButton`.
- `editing.dfy` (`Editing`): the per-item container values and their defaults,
  the board handlers, the drop guard, handler precedence and the delete rule.
- `section.dfy` (`Section.SectionView`): the section state machine of V10. The
  V7 and V9 sections are restrictions of it, with default item values and no
  limit. V7 has no `onDelete`; V9 has both board handlers but reads no per-item
  values. A V8 section keeps the per-item move entries and the
  limit, but leaves the delete entries at their defaults, and its board supplies
  no `onDelete`.
- `binding.dfy` (`Binding`): the bound collection that the binding closures
  edit.
- `v4.dfy` to `v10.dfy`: what each step adds or fixes (its initialisers,
  defaults and gates), as lemmas over the shared rules. `V6` has its own class
  because its drop edits the bound data directly. `V10.EditableBoard` joins a
  section to its bound collection.

User closures are opaque. The section records each handler call, with its
offsets, in `calls`.

## Model

| member | source | states |
|---|---|---|
| `Offsets.FirstIndex` | CustomContainerDemo/Progress/V10.swift:182 | the result is absent exactly when the id is not in the list; otherwise it is an offset holding the id with no earlier occurrence |
| `Offsets.RemoveAt` | CustomContainerDemo/Progress/V10.swift:111 | one element fewer; elements before the offset stay put, those after move down by one |
| `Offsets.MoveOne` | CustomContainerDemo/Progress/V10.swift:116 | length and multiset are preserved; the moved element sits at `dest - 1` when `dest > from`, else at `dest` |
| `Offsets.MoveIsRemoveThenInsert` | CustomContainerDemo/Progress/V6.swift:43 | a move equals removing the element and inserting it at its landing offset |
| `Offsets.MoveKeepsOthersInOrder` | CustomContainerDemo/Progress/V7.swift:91 | after a move, dropping the moved element gives exactly the original minus that element: all others keep their relative order |
| `Offsets.MoveInPlace` | CustomContainerDemo/Progress/V9.swift:115 | moving to `from` or `from + 1` leaves the list unchanged |
| `Offsets.DropLandsOnTarget` | CustomContainerDemo/Progress/V10.swift:115-117 | with destination `to > from ? to + 1 : to` the dragged element ends at `to`, the others keep their order, and `from == to` is the identity |
| `Offsets.FirstIndexOfDistinct` | CustomContainerDemo/Progress/V10.swift:209 | in a list with unique ids, looking up the id at offset `k` finds `k` |
| `Offsets.RemoveFromDistinct` | CustomContainerDemo/Progress/V9.swift:103 | removal keeps ids unique and the removed id no longer occurs |
| `Offsets.MoveKeepsDistinct` | CustomContainerDemo/Progress/V8.swift:110 | a move keeps ids unique |
| `Collapse.VisibleItems` | CustomContainerDemo/Progress/V10.swift:160-164 | the visible items are a prefix of the items: of length `maxItemCount` when collapsed with more available, otherwise all items |
| `Collapse.MoreItemsIffSomethingHidden` | CustomContainerDemo/Progress/V10.swift:154-158 | more items are available iff the collapsed view shows fewer items than there are |
| `Collapse.ExpandRevealsHiddenTail` | CustomContainerDemo/Progress/V8.swift:147-151 | the expanded view is the collapsed view followed by exactly the hidden items |
| `Collapse.NoLimitShowsAll` | CustomContainerDemo/Progress/V4.swift:128-138 | without a limit every item is visible and there is no toggle button, expanded or not |
| `Collapse.CollapsibleSection.constructor` | CustomContainerDemo/Progress/V3.swift:28 | a section starts collapsed |
| `Collapse.CollapsibleSection.Toggle` | CustomContainerDemo/Progress/V3.swift:59-69 | the button, present only when more items are available, flips `isExpanded` (so two presses restore it); the label then reads "Hide" when expanded and "More" when collapsed, and the visible items are those of the flipped state |
| `Editing.Resolve` | CustomContainerDemo/Progress/V10.swift:209-211 | a drop resolves iff a dragged id is recorded and both ids are in the full list; `from` and `to` are their first offsets there |
| `Editing.DeleteAction` | CustomContainerDemo/Progress/V10.swift:184-188 | a card has a delete closure iff it is not delete-disabled, a delete handler exists and its id is found; the call uses its first offset in the full list and is the card's own `deletable` iff set |
| `Editing.CustomActionFirst` | CustomContainerDemo/Progress/V10.swift:213-219 | a drop runs exactly one handler: with the card's own `movable` the call is the same whatever the board supplies; only a card without one falls back to the board's `onDrop` |
| `Editing.DefaultsDeferToBoard` | CustomContainerDemo/Progress/V10.swift:332-337 | with the default container values, dragging exists iff `onDrop` does, drops call `onDrop`, and deletion exists iff `onDelete` does and the id is found |
| `Editing.MoveDisabledNeverAttached` | CustomContainerDemo/Progress/V10.swift:202 | a move-disabled card never gets drag and drop |
| `Editing.DropFailsOnlyOnDragged` | CustomContainerDemo/Progress/V8.swift:182-184 | for a target in the list, a drop is refused iff no dragged id is recorded or it is no longer in the list |
| `Section.SectionView.constructor` | CustomContainerDemo/Progress/V10.swift:149-151 | a section starts collapsed, with no dragged id and no calls |
| `Section.SectionView.Toggle` | CustomContainerDemo/Progress/V10.swift:230-240 | only callable while the button is shown (more items available); flips `isExpanded` and changes nothing else; the label then reads "Hide" when expanded and "More" when collapsed |
| `Section.SectionView.BeginDrag` | CustomContainerDemo/Progress/V10.swift:204-207 | on a card with drag and drop, records that subview's id and changes nothing else |
| `Section.SectionView.Drop` | CustomContainerDemo/Progress/V10.swift:208-220 | returns false, calling nothing, exactly when the dragged id is missing from the full content; otherwise appends exactly one call, with the full-list offsets: the card's `movable` when it has one, else the board's `onDrop`; returns true |
| `Section.SectionView.Delete` | CustomContainerDemo/Progress/V10.swift:185-186 | running a card's delete closure appends exactly its call |
| `Section.SectionView.Refresh` | CustomContainerDemo/Progress/V10.swift:36 | new content from the board replaces the old one; `isExpanded`, the dragged id and the calls survive |
| `Binding.Rows` | CustomContainerDemo/Progress/V10.swift:119-123 | one subview per row, in order, whose ids are the rows; each row is taken to render as exactly one view (see "## Left out") |
| `Binding.BoundCollection.Move` | CustomContainerDemo/Progress/V10.swift:115-117 | the row taken from `from` ends at `to`; length, multiset, the others' order and unique ids are preserved |
| `Binding.BoundCollection.Remove` | CustomContainerDemo/Progress/V10.swift:109-113 | exactly the row at the offset goes; ids stay unique |
| `V4.BoardSectionsShowAll` | CustomContainerDemo/Progress/V4.swift:36 | the V4 board's sections show all their items and never a toggle button |
| `V5.UnsetLimitShowsAll` | CustomContainerDemo/Progress/V5.swift:96 | a section that never sets `maxItemCount` gets the nil default and shows everything, with no button |
| `V5.SetLimitTruncates` | CustomContainerDemo/Progress/V5.swift:166-176 | a section that sets a limit below its count shows exactly that many leading items, with the "More" label |
| `V6.SectionViewV6.constructor` | CustomContainerDemo/Progress/V6.swift:16-17 | starts with the bound data and no dragged id |
| `V6.SectionViewV6.BeginDrag` | CustomContainerDemo/Progress/V6.swift:32-36 | any card can be dragged; its id is recorded and the data is untouched |
| `V6.SectionViewV6.Drop` | CustomContainerDemo/Progress/V6.swift:37-45 | refused with the data untouched iff an id is missing; otherwise the data is moved in place, the dragged row lands at `to` (at the target itself when ids are unique), and true is returned |
| `V7.CardsDraggableIffBinding` | CustomContainerDemo/Progress/V7.swift:33-94 | cards get drag and drop iff the section was built by the binding initialiser (the only one that supplies `onDrop`), all cards show, and a drop calls `onDrop` |
| `V7.BindingDropLandsOnTarget` | CustomContainerDemo/Progress/V7.swift:90-92 | with unique ids, the binding `onDrop` puts the dragged row at the drop target's offset, keeps the others in order and keeps ids unique |
| `V8.NoDeleteAffordance` | CustomContainerDemo/Progress/V8.swift:167-173 | no V8 card ever has a delete closure |
| `V8.DraggableOnBoards` | CustomContainerDemo/Progress/V8.swift:76-175 | the binding initialiser supplies `onDrop` and the others nothing, so on a binding board a card is draggable iff it is not move-disabled, and elsewhere iff it also has `movable` |
| `V9.CardDelete` | CustomContainerDemo/Progress/V9.swift:30-34 | a card's delete closure exists iff `onDelete` does and its id is found; it deletes at the id's first offset |
| `V9.DeleteRuleAtDefaults` | CustomContainerDemo/Progress/V10.swift:184-188 | the V10 delete rule at default item values is exactly V9's rule |
| `V9.DeleteOnlyStillDraggable` | CustomContainerDemo/Progress/V9.swift:100-116 | as written, the binding initialiser gates only `onDelete` on the edit actions, so with `.delete` alone cards are still draggable and drops still call the moving `onDrop` |
| `V9.BindingDeleteRemovesRow` | CustomContainerDemo/Progress/V9.swift:100-108 | with unique ids, deleting row `k` calls `onDelete(k)`, and removal takes out exactly that id, one occurrence, and nothing else |
| `V10.EditActionGating` | CustomContainerDemo/Progress/V10.swift:95-117 | the binding initialiser gates both handlers, so for rows without container values a card is draggable iff `.move` is allowed and deletable iff `.delete` is allowed and the id is found; the default `.all` supplies both handlers |
| `V10.StaleDragRefused` | CustomContainerDemo/Progress/V10.swift:149 | a dragged id is never cleared, so once its row is deleted every drop is refused |
| `V10.EditableBoard.constructor` | CustomContainerDemo/Progress/V10.swift:95-124 | the board keeps the given rows, row values and edit actions; its section shows those rows, collapsed, with no drag and no calls, and carries the handlers the edit actions gate |
| `V10.EditableBoard.DropOnto` | CustomContainerDemo/Progress/V10.swift:202-220 | succeeds iff the dragged id is still a row. A refused drop changes neither the log nor the data. A successful one appends exactly one call to the log, whose earlier entries are kept: `ItemMovable` for a target with `movable`, taken to leave the data untouched (see "## Left out"), else `BoardDrop(from, k)`, whose `move` puts the dragged row at `k` (length, multiset and the others' order kept). The section then shows the rows |
| `V10.EditableBoard.DeleteCard` | CustomContainerDemo/Progress/V10.swift:184-188 | appends exactly one call to the log, whose earlier entries are kept: `ItemDeletable` for a card with `deletable`, taken to leave the data untouched (see "## Left out"), else `BoardDelete(k)`, whose removal takes out exactly the card's row |

## Left out

- Rendering, layout and styling: paddings, widths, colours, strokes, shadows, header and footer views, and `CardView` itself. Each visible subview gets one card, in order, so the model reasons about the visible sequence directly.
- `CardView.swift` as shipped takes no `onDelete` argument, though V9 and V10 pass one; how a card shows its delete affordance is not part of this model. Only the closure the section builds is modelled.
- Animations (`withAnimation`, `toggleAnimation`), drag payloads (`NSItemProvider`) and the `isTarget` binding, which the code never reads.
- The container-value mechanism (`@Entry`, `containerValue`). Only the defaults are modelled (`Editing.DefaultValues`, `V5.DefaultMaxItemCount`).
- The effects of user closures (`movable`, `deletable`, `onDrop`/`onDelete` of non-binding boards): the model records each call with its offsets, not what the closure does.
- V10.EditableBoard.DropOnto: on the `movable` branch it promises `bound.data == old(bound.data)`. That assumes the user closure leaves the bound data untouched. The demo's own closures at V10.swift:484-493 do edit it (move to the top, remove), and this model does not capture that.
- V10.EditableBoard.DeleteCard: on the `deletable` branch it promises `bound.data == old(bound.data)`, under the same assumption. The demo's `deletable` at V10.swift:489-493 removes the row.
- Binding.Rows: each row's `rowContent` is taken to render as exactly one view, with no `Section`. A row producing several views or a section would be flattened by `Group(sections:)` into several subviews. Then the offsets that `firstIndex` finds in the content (V10.swift:182, :209) would not be offsets into the data, yet V10.swift:111 and :116 apply them to the data. `EditableBoard`'s "lands at `k`" and "removes exactly the card's row" rest on this assumption. The demo's rows are one `Text` each.
- `maxItemCount` is a natural number. A negative `Int` would make Swift's `prefix` trap on the first render, because `isExpanded` starts false.
- Drag, drop and delete happen only on cards that carry those closures. This is a precondition of the methods (`DragDropAttached`, `DeleteAction`). The framework cannot invoke a closure that was never attached.
- Row identity is `id: \.self` on `Int` rows, so `Binding.BoundCollection` keeps ids unique, as `ForEach` identity requires. Other key paths are not modelled. Elsewhere, lists may contain duplicates, and lookups take the first match, as `firstIndex` does.
- V6's non-binding initialisers bind `data` to a constant empty collection. Only the binding form is modelled, where the subviews are the data.
- A board with several sections: `V10.EditableBoard` models the binding board, whose `ForEach` forms a single section. Multi-section boards are `Section.SectionView` values sharing the same handlers.
- Gesture timing and concurrency: each user action is one atomic method call.
- App entry, previews and the `*ContentView`/`*TestView` demo views.

## Findings

| source | as written | input that shows it | evidently intended | confidence | as-written member | corrected member |
|---|---|---|---|---|---|---|
| CustomContainerDemo/Progress/V9.swift:110-116 | the binding initialiser always passes an `onDrop` that calls `move`, whatever `editActions` contains | `editActions: .delete` (as at V9.swift:128): every card is still draggable and a drop still reorders the data | supply `onDrop` only when `editActions` contains `.move`, as V10.swift:115-117 later does | low: V9.swift:129 labels the `.delete`-only rows "movable", so dragging may be meant; not executed | `V9.DeleteOnlyStillDraggable` | `V10.EditActionGating` |
