# Rename tool preview controller, in Dafny

This project models the non-widget logic of the rename tool's preview pane
(`renametool/ui/preview.py`, class `Preview`). The tool renames a batch of files in one
of two ways: a rename template or a literal search/replace. The preview pane shows,
before anything is renamed, one row per file: the original name on the left, and on the
right an arrow followed by the new name. The arrow is coloured when the file's note is
the batch's error.

The model has two modules:

- `Text` (`text.dfy`) models Python's `str.replace(old, new)`. The string is cut into
  `Piece`s: kept characters and hits of the pattern. The hits are the leftmost,
  non-overlapping occurrences. An empty pattern hits every gap, including before the
  first character and after the last, as Python does. The pieces are then rendered with
  the replacement. The replace tab uses this to highlight the matches in both columns.
- `Preview` (`preview.dfy`) models the controller.
  - The two refresh gates are pure functions on a `GateMemory` value. The class `Preview`
    holds the same five fields and updates them in place. Its methods are proved equal
    to the gate functions.
  - Each refresh normalises the rule text and runs the engine. It then sets
    `statusError` and rebuilds the rows in a loop. The row-building loops return the
    list of rows. The class stores that list in `rows`, which stands for the tree view's
    model.
  - `Tick` is one pass of the polling loop. It reads the header once, as a `Header`
    snapshot.

The rename and replace engines (`tools.rename.Rename`, `tools.replace.Replace`) are not
part of this model. Each is a function parameter. It maps the file list and the rule
text to an `EngineRun`: a `Label` (new name and note) per file, in list order, plus the
batch error. `Relabel` applies the labels. A file's original name and extension never
change.

Python treats `None` and `''` as false. A note or batch error of that kind is the empty
string here. The preview only tests these values for truth and compares them for
equality, so the two readings agree.

Behaviour of the code worth knowing:

- With an empty search text, the code forces the replacement to `''`. It still calls
  `str.replace('', …)` on every name, so an empty highlight span is inserted at every gap
  of both columns. Nothing is left unmatched. `Text.ReplaceEmptyPattern` states this
  behaviour.
- On the replace tab, the right column is the original name with every match replaced by
  the replacement text. It is not the engine's proposed name (`ReplaceRowIgnoresProposedName`).
- The hidden-file note that the preview compares against is `'hidden-file-error'`.
- The replace gate ignores `is_the_first_preview_loop`. A preview that starts on a tab
  other than `rename`, with the header unchanged, is not filled on its first tick
  (`FirstTick`).
- `set_file_list` stores the new list and restarts the polling daemon, which schedules
  a tick. It does not reset the gates, so that tick refreshes only when its gate says so.
  If the first-loop flag is still set, a tick on the rename tab refreshes anyway. This
  happens when the constructor got an empty list and so started no daemon, or when
  every tick so far ran on another tab. Once the first loop is spent and the header
  reads as the gates remember it, a new list is not previewed until a header text or
  the active tab changes. Until then, the rows still describe the old list and the gate
  memory stays as it was (`NewListAwaitsInputChange`).

## Model

| member | source | states |
|---|---|---|
| `Text.ReplaceWithItself` | renametool/ui/preview.py:202-203 | `s.replace(p, p) == s` for every pattern, the empty one included. Together, the highlighted spans and the kept characters cover the original name exactly. |
| `Text.ReplaceAbsent` | renametool/ui/preview.py:202-203 | A non-empty pattern that does not occur in `s` leaves `s` unchanged, whatever the replacement. |
| `Text.ReplaceAtStart` | renametool/ui/preview.py:202-203 | A non-empty pattern at the start of `s` is replaced there: the result begins with the replacement. |
| `Text.ReplaceEmptyPattern` | renametool/ui/preview.py:202-203 | The empty pattern puts the replacement at each of the n + 1 gaps of `s` (n the length of `s`) and keeps every character in order. The result is `r, s[0], r, s[1], …, s[n-1], r`: a copy of `r` at offset `Slot(i, r)` for every `i` from 0 to n, and `s[i]` right after the i-th copy. `Text.SlotValue` shows that `Slot(i, r)` is `i·(m+1)`, where m is the length of `r`. |
| `Text.EmptyPatternLength` | renametool/ui/preview.py:202-203 | The empty pattern's result has n + (n + 1)·m characters: the n characters of `s` and n + 1 copies of the replacement. |
| `Text.PresentHits` | renametool/ui/preview.py:202-203 | A non-empty pattern that occurs in `s` is hit at least once, so an occurrence is always highlighted. |
| `Text.FirstOccurrenceHit` | renametool/ui/preview.py:202-203 | Matching is leftmost: every character before the first occurrence of a non-empty pattern is kept, and the first occurrence is hit. |
| `Text.SplitAtFirst` | renametool/ui/preview.py:202-203 | Every occurrence is replaced, not just the first. Take `i`, the first position where a non-empty pattern occurs. The result is `s[..i]`, then the replacement, then the text after that occurrence with its own occurrences replaced in the same way. With `ReplaceAbsent`, this fixes the result for every non-empty pattern. |
| `Preview.RenameGateRecords` | renametool/ui/preview.py:97-110 | After the rename gate, the template and tab are remembered and the first-loop flag is off. The replace tab's memory is untouched. A "no refresh" answer changes nothing. |
| `Preview.RenameGateIdempotent` | renametool/ui/preview.py:91-110 | A second rename-gate call with the same template and tab answers "no refresh" and leaves the memory as it was. |
| `Preview.ReplaceGateRecords` | renametool/ui/preview.py:118-130 | After the replace gate, the search text, replace text and tab are remembered. The remembered template and the first-loop flag are untouched. A "no refresh" answer changes nothing. |
| `Preview.ReplaceGateIgnoresFirstLoop` | renametool/ui/preview.py:112-117 | The replace gate's answer does not depend on the first-loop flag. |
| `Preview.ReplaceGateIdempotent` | renametool/ui/preview.py:112-130 | A second replace-gate call with the same texts and tab answers "no refresh" and leaves the memory as it was. |
| `Preview.TickSettles` | renametool/ui/preview.py:73-89 | Two ticks with the same header reading: the second neither refreshes nor changes the gate memory. |
| `Preview.TabSwitchRefreshes` | renametool/ui/preview.py:91-130 | A tick whose active tab differs from the remembered one always refreshes. |
| `Preview.FirstTick` | renametool/ui/preview.py:59-130 | After construction, the first tick on the rename tab always refreshes. A first tick on any other tab, with the header as it read at construction, does not. |
| `Preview.EffectiveRenameText` | renametool/ui/preview.py:136-138 | A non-empty template reaches the engine unchanged. An empty one is replaced by the `[original-name]` markup entry, so the engine sees an empty template only if that entry is empty. |
| `Preview.EffectiveReplaceText` | renametool/ui/preview.py:180-182 | An empty search text forces an empty replacement. Otherwise the replacement passes through. |
| `Preview.Relabel` | renametool/ui/preview.py:140-144 | Applying an engine run keeps the list's length and each file's original name and extension. File `i` takes the name and note of label `i`. |
| `Preview.StatusOf` | renametool/ui/preview.py:146-151 | The status is none exactly when the batch error is false. Otherwise it is the batch error. |
| `Preview.ClassifyMeaning` | renametool/ui/preview.py:154-171 | A row gets the error arrow iff its note equals a batch error that is non-empty and not `hidden-file-error`. It gets the warning arrow iff its note and the batch error are both `hidden-file-error`. Every other row, including one whose note differs from the batch error, is plain. |
| `Preview.ReplaceRowUnmatched` | renametool/ui/preview.py:200-217 | If the non-empty search text does not occur in a file's original name, both columns show that name and extension unmodified. |
| `Preview.ReplaceRowIgnoresProposedName` | renametool/ui/preview.py:200-217 | A replace-tab row does not depend on the engine's proposed name, only on the file's note. |
| `Preview.BuildRenameRows` | renametool/ui/preview.py:153-171 | Exactly one row per file, in list order. The left column is original name + extension + three spaces. The right column is the arrow chosen by `Classify`, then the proposed name and the extension. |
| `Preview.BuildReplaceRows` | renametool/ui/preview.py:196-217 | Exactly one row per file, in list order. Each row is the file's replace row: matches of the search text are highlighted on the left with the search text and on the right with the replacement. |
| `Preview.Preview.constructor` | renametool/ui/preview.py:26-64 | Remembers the header's current texts and tab, arms the first-loop flag, and starts with no status and no rows. |
| `Preview.Preview.CanUpdateRenamePreview` | renametool/ui/preview.py:91-110 | Returns true iff the template or the tab differs from what is remembered, or this is the first loop. Afterwards the template and tab are remembered and the flag is off. On false nothing changes. The result equals `RenameGate`. |
| `Preview.Preview.CanUpdateReplacePreview` | renametool/ui/preview.py:112-130 | Returns true iff the search text, the replace text or the tab differs from what is remembered. Afterwards all three are remembered. The first-loop flag and the remembered template are outside its frame. The result equals `ReplaceGate`. |
| `Preview.Preview.RenamePreview` | renametool/ui/preview.py:132-174 | Runs the engine on the effective template and relabels the files. Sets the status from the batch error and sets one rename row per file, in order. |
| `Preview.Preview.ReplacePreview` | renametool/ui/preview.py:176-219 | Runs the engine on the search text and the effective replacement and relabels the files. Sets the status from the batch error and sets one highlighted replace row per file, in order. |
| `Preview.Preview.Tick` | renametool/ui/preview.py:73-89 | Updates the gate memory as the active tab's gate prescribes. When the gate says no, the files, status and rows are unchanged. When it says yes, the tab's preview is refreshed. |
| `Preview.Preview.SetFileList` | renametool/ui/preview.py:221-229 | Replaces the file list and leaves the gate memory as it was. |
| `Preview.NewListAwaitsInputChange` | renametool/ui/preview.py:221-229 | After a new list is set, a tick whose gate says no leaves the rows and status as they were, while the controller holds the new list. The gate memory is also left as it was, so the next tick with the same header reading behaves the same way. |

## Left out

- GTK widget construction, the tree view, cell renderers and `set_model` are not modelled. The field `rows` stands for the model handed to the tree view.
- The `GLib.idle_add` / `GLib.timeout_add(300, …)` polling daemon is not modelled: it is scheduling. `Tick` models one pass of `__change_preview_gtk_widgets`. Also left out: the constructor starting the daemon when the list is non-empty, and `set_file_list` restarting it.
- The internals of the rename and replace engines (`tools/rename.py`, `tools/replace.py`) are not part of this model. Each engine is a function parameter that yields a label per file and a batch error.
- Preview.Relabel: the real engine labels every file. The model applies labels by position, so a run with fewer labels than files leaves the remaining files as they were.
- The caller's list and its `File` objects are shared, not copied (`renametool/ui/preview.py:29`, `228`). The engines update those objects in place (`141-143`, `185-186`), so the caller sees every change. In the model, `fileList` is a value of `FileEntry` records, and that sharing is not represented.
- The header getters are called several times in one pass. The model reads them once per tick, as a `Header` snapshot, assuming they return the same value within a pass.
- `markup_settings` is a record holding only the `[original-name]` entry. The `KeyError` a dictionary without that key would raise is not modelled.
- Colour values are opaque strings concatenated into the markup. Python's `str()` conversion in `str.format` of non-string values is not modelled.
- `color_settings` is a record with the four colours it is indexed by (`renametool/ui/preview.py:158`, `164`, `197-198`, `206`, `212`). The `KeyError` a dictionary without one of those keys would raise is not modelled. The lookups at 197-198 run on every replace refresh.
- The `print` diagnostics are not modelled.
- `renametool/frontend/gtk/gtkmain.py` is not modelled: window setup and argument handling only.
