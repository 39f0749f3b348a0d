# Auto-number labels of the Kinovea player screen

Kinovea lets the user drop numbered labels ("auto numbers") on a video. All the
labels of a video belong to a single drawing, the `AutoNumberManager`, which
acts as one drawing toward the editor:

- it keeps its labels in a list ordered by value;
- it gives every new label the smallest number that a deletion left free in
  1..N, or else one more than the largest number;
- it hit-tests the labels in list order and selects the first one that is hit;
- it forwards moves to the selected label only;
- it supports redo (re-adding a label), removal and clearing.

This project models that manager in Dafny and proves what the allocation and
the list operations promise.

- `drawings.dfy` (module `Drawings`) holds the drawing contract the labels
  follow: image points, and the hit-test codes -1 (miss), 0 (whole drawing)
  and n > 0 (handle n). It also holds the label element `AutoNumber`: a class
  with a constant value, placement time and frame interval, and a mutable
  anchor point.
- `numbering.dfy` (module `Numbering`) holds pure functions over the list of
  label values: the first hole, the next value, the insertion point, the first
  hit, and first-occurrence removal. It also holds the lemmas about them:
  - the allocated value is fresh;
  - on positive values it is the least positive integer missing from the list;
  - inserting, removing or appending keeps the list strictly ascending;
  - the first hit is the lowest-valued hit.
- `manager.dfy` (module `Manager`) holds the class `AutoNumberManager`. Its
  fields are `numbers`, a `seq` reassigned where the source changes its
  `List<AutoNumber>` in place, and the selection index `selected`. The loops
  of `FindFirstHole`, `InsertSorted` and `HitTest` are `while` loops, each
  proved against the matching function of `Numbering`. Two predicates are kept
  by the methods: `Valid()` (the selection is -1 or a list index) and
  `Sorted()` (values strictly ascending, hence unique). Every method keeps
  `Valid()`. `Add`, `Remove`, `Clear`, `HitTest` and the moves keep
  `Sorted()`. `AddExisting` keeps it only when the re-added label's value is
  above the last one.

Labels are compared by reference, as the source's `List.Remove` does on a
class that does not redefine equality. The `object` payload of the redo `Add`
and of `Remove` is modelled as `AutoNumber?`: the C# `as` cast turns a payload
that is not an `AutoNumber` into `null`, and that case changes nothing.

The per-label hit test is geometry inside `AutoNumber`, which is not part of
this model. It is the parameter `probe` of `HitTest`, whose results are
restricted to the documented codes (`HitResult`, at least -1). Because of that
restriction, the source's "return the last result" yields exactly -1 when
nothing is hit.

The source's redo `Add(object)` appends without sorting. After a label is
re-added behind a larger one, allocation can hand out a value that is already
used: `UnsortedListReusesValue` shows `{1, 3, 2}` receiving 2 again. The model
keeps that behaviour. Uniqueness is proved for lists that are strictly
ascending, which every `Add`, `Remove` and `Clear` preserves.

## Model

| member | source | states |
|---|---|---|
| `Drawings.AutoNumber.constructor` | ScreenManager/PlayerScreen/Drawings/AutoNumberManager.cs:145 | a new label holds exactly the value, anchor point, time position and frame interval it is built with |
| `Drawings.AutoNumber.MouseMove` | ScreenManager/PlayerScreen/Drawings/AbstractDrawing.cs:77-83 | moving a label as a whole translates its anchor by (dx, dy) |
| `Drawings.AutoNumber.MoveHandleTo` | ScreenManager/PlayerScreen/Drawings/AbstractDrawing.cs:64-69 | moving a label's handle puts the anchor at the given point |
| `Numbering.HoleFrom` | ScreenManager/PlayerScreen/Drawings/AutoNumberManager.cs:204-210 | scanning from position i gives k + 1 for the least k >= i with value > k + 1 (every earlier position holds at most its index + 1), or -1 when no position from i on has such a value |
| `Numbering.FirstHole` | ScreenManager/PlayerScreen/Drawings/AutoNumberManager.cs:201-211 | -1 exactly when every position k holds at most k + 1; otherwise h with value at h - 1 above h and every earlier position k at most k + 1 |
| `Numbering.NextValue` | ScreenManager/PlayerScreen/Drawings/AutoNumberManager.cs:158-200 | the value for a new label: 1 on an empty list; otherwise either a hole value within 1..N (N the number of labels) or the last value + 1 |
| `Numbering.NextValueCases` | ScreenManager/PlayerScreen/Drawings/AutoNumberManager.cs:158-211 | the allocated value is 1 on an empty list; k + 1 for the first position k whose value exceeds k + 1; the last value + 1 when there is no such position |
| `Numbering.InsertionPoint` | ScreenManager/PlayerScreen/Drawings/AutoNumberManager.cs:212-225 | the position before the first value strictly greater than the new one, or the end; every value before it is at most the new one |
| `Numbering.FirstHit` | ScreenManager/PlayerScreen/Drawings/AutoNumberManager.cs:90-106 | the index of the first non-negative hit result, every earlier one a miss; -1 exactly when all miss |
| `Numbering.IndexOf` | ScreenManager/PlayerScreen/Drawings/AutoNumberManager.cs:126 | the index of the first occurrence of the label, -1 exactly when absent |
| `Numbering.RemoveFirst` | ScreenManager/PlayerScreen/Drawings/AutoNumberManager.cs:126 | removing a label leaves the list unchanged when the label is absent and one shorter when it is present |
| `Numbering.RemoveFirstMultiset` | ScreenManager/PlayerScreen/Drawings/AutoNumberManager.cs:126 | removal takes exactly one copy of the label out of the multiset of labels and keeps every other one |
| `Numbering.RemoveFirstAtIndex` | ScreenManager/PlayerScreen/Drawings/AutoNumberManager.cs:126 | removal cuts the list at the first occurrence and leaves the rest in order |
| `Numbering.NextValueFresh` | ScreenManager/PlayerScreen/Drawings/AutoNumberManager.cs:192-211 | on a strictly ascending list the allocated value is not already in the list |
| `Numbering.NextValueLeastMissing` | ScreenManager/PlayerScreen/Drawings/AutoNumberManager.cs:192-211 | on strictly ascending positive values the allocated value is the least positive integer missing from the list |
| `Numbering.AscendingFloor` | ScreenManager/PlayerScreen/Drawings/AutoNumberManager.cs:206 | in a strictly ascending list of positive values, position k holds at least k + 1, so the hole test only fires at a real gap |
| `Numbering.InsertKeepsAscending` | ScreenManager/PlayerScreen/Drawings/AutoNumberManager.cs:212-225 | inserting an absent value at its insertion point keeps the list strictly ascending |
| `Numbering.RemoveKeepsAscending` | ScreenManager/PlayerScreen/Drawings/AutoNumberManager.cs:120-128 | removing any position keeps the list strictly ascending |
| `Numbering.AppendKeepsAscending` | ScreenManager/PlayerScreen/Drawings/AutoNumberManager.cs:110-119 | appending a value above the last keeps the list strictly ascending |
| `Numbering.FirstHitIsLowest` | ScreenManager/PlayerScreen/Drawings/AutoNumberManager.cs:94-103 | on a strictly ascending list the first hit has the lowest value among all hits, so overlapping labels resolve to the smaller number |
| `Numbering.UnsortedListReusesValue` | ScreenManager/PlayerScreen/Drawings/AutoNumberManager.cs:201-211 | after an unsorted append {1, 3, 2}, allocation returns 2, a value already present |
| `Numbering.NextValueExamples` | ScreenManager/PlayerScreen/Drawings/AutoNumberManager.cs:158-211 | allocation gives 1 on an empty list, 3 for {1, 2, 4} and 4 for {1, 2, 3} |
| `Manager.AllocatedInsertKeepsSorted` | ScreenManager/PlayerScreen/Drawings/AutoNumberManager.cs:141-146 | on labels strictly ascending by value, a label with the allocated value is new, and inserting it at its insertion point keeps them strictly ascending |
| `Manager.RemoveKeepsSorted` | ScreenManager/PlayerScreen/Drawings/AutoNumberManager.cs:126 | removing a label from labels strictly ascending by value keeps them strictly ascending |
| `Manager.AutoNumberManager.constructor` | ScreenManager/PlayerScreen/Drawings/AutoNumberManager.cs:70-71 | a manager starts with no labels and no selection |
| `Manager.AutoNumberManager.SelectedItem` | ScreenManager/PlayerScreen/Drawings/AutoNumberManager.cs:40-48 | the label at the selection when the selection is a list index, null exactly otherwise |
| `Manager.AutoNumberManager.Count` | ScreenManager/PlayerScreen/Drawings/AutoNumberManager.cs:49-51 | the number of labels in the list |
| `Manager.AutoNumberManager.MoveDrawing` | ScreenManager/PlayerScreen/Drawings/AutoNumberManager.cs:80-84 | only the selected label may change, and it is translated by (dx, dy); nothing changes without a valid selection |
| `Manager.AutoNumberManager.MoveHandle` | ScreenManager/PlayerScreen/Drawings/AutoNumberManager.cs:85-89 | only the selected label may change, and its anchor is set to the point; nothing changes without a valid selection |
| `Manager.AutoNumberManager.HitTest` | ScreenManager/PlayerScreen/Drawings/AutoNumberManager.cs:90-106 | the first label in list order with a non-negative result becomes selected and its result is returned; with no hit the result is -1 and the selection is unchanged; the list never changes |
| `Manager.AutoNumberManager.AddExisting` | ScreenManager/PlayerScreen/Drawings/AutoNumberManager.cs:110-119 | a non-label payload changes nothing; a label is appended unsorted and selected; order is kept when its value is above the last |
| `Manager.AutoNumberManager.Remove` | ScreenManager/PlayerScreen/Drawings/AutoNumberManager.cs:120-128 | a non-label payload changes nothing; otherwise the first occurrence is removed and the selection cleared even if the label was absent; order is kept |
| `Manager.AutoNumberManager.Clear` | ScreenManager/PlayerScreen/Drawings/AutoNumberManager.cs:129-133 | no labels remain and nothing is selected |
| `Manager.AutoNumberManager.Add` | ScreenManager/PlayerScreen/Drawings/AutoNumberManager.cs:141-146 | a fresh label with the allocated value is inserted at its insertion point and selected, the count grows by one, and on an ordered list its value is new and the list stays ordered |
| `Manager.AutoNumberManager.NextValue` | ScreenManager/PlayerScreen/Drawings/AutoNumberManager.cs:158-167 | returns the allocated value of the current list (1 when empty) |
| `Manager.AutoNumberManager.NextValueVideo` | ScreenManager/PlayerScreen/Drawings/AutoNumberManager.cs:192-200 | on a non-empty list returns the first hole's value, else the last value + 1 |
| `Manager.AutoNumberManager.FindFirstHole` | ScreenManager/PlayerScreen/Drawings/AutoNumberManager.cs:201-211 | the loop returns exactly the first hole of the current list, or -1 |
| `Manager.AutoNumberManager.InsertSorted` | ScreenManager/PlayerScreen/Drawings/AutoNumberManager.cs:212-225 | the label is inserted at the insertion point of its value, the returned index holds it, and the rest of the list keeps its order |

## Left out

- `Draw` (GDI+ rendering through a coordinate system) is not modelled. It only
  visits the labels in list order.
- `WriteXml` (XML output) is not modelled. It writes one `AutoNumber` element
  per label, in list order.
- The fade property `infosFading`, which throws `NotImplementedException` on
  get and set, is not modelled. Neither are the constant UI members `Caps`,
  `ContextMenu` and `ToString`.
- The internals of `AutoNumber` are not part of this model:
  - its hit geometry is the `probe` parameter of `HitTest`;
  - its drawing and persistence are left out;
  - `MouseMove` and `MoveHandleTo` are modelled only as translating or setting
    the anchor point, following the `MoveDrawing` and `MoveHandle` doc
    comments of `AbstractDrawing.cs`.
- `AbstractDrawing.cs` declares only abstract members. Its doc comments are
  used as contracts: the hit-test codes and the meaning of the moves.
- `ExporterTrajectoryText.cs` (file output through an XSLT transform) is not
  part of this model.
- Values and indices are unbounded integers. The source's 32-bit `int` would
  wrap on `Value + 1` at `int.MaxValue`, which the model does not capture.
- The time position passed to `NextValue`/`NextValueVideo`, the handle number
  of `MoveHandle` and the modifier keys of both moves are parameters that the
  source does not read. The model keeps them and does not read them either.
  The modifier keys are plain integers here.
- Label equality in `Remove` is reference identity. If `AutoNumber` redefined
  `Equals`, `List.Remove` would use that instead; that class is not part of
  this model.
