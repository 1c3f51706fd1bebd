/** The non-widget logic of the rename tool's preview pane.

    A `Preview` remembers the header's inputs it last rendered. On every tick it reads the
    header once (a `Header` snapshot), asks the refresh gate of the active tab whether anything
    changed, and if so runs the rename or the replace engine over the file list and rebuilds
    the preview list: one row per file, an "original" column and an arrow-prefixed "new"
    column, the arrow coloured when the file's note is the batch error.

    The engines themselves are not part of this model: each is a function parameter that,
    given the file list and the rule text, yields a new name and a note per file and the
    batch error (`EngineRun`). A note or batch error that Python treats as false (`None` or
    `''`) is the empty string here; the preview only tests them for truth and equality, so
    both readings agree. */
module Preview {
  import opened Text

  datatype Option<T> = None | Some(value: T)

  /** The header's stack name that selects the rename tab; any other name is the replace tab. */
  const RenameStack: string := "rename"
  /** The note the engines give a file whose new name would hide it. */
  const HiddenFileError: string := "hidden-file-error"
  /** Arrow of a row that carries no batch error. */
  const PlainArrow: string := "   → "
  /** Padding after the original name in the left column. */
  const Gap: string := "   "
  const EndSpan: string := "</span>"

  /** One reading of the header widgets. */
  datatype Header = Header(activeStack: string, renameText: string, existingText: string, replaceText: string)

  /** Colour names; their contents are opaque to the preview. */
  datatype ColorSettings = ColorSettings(
    errorColor: string, warningColor: string, oldMatchingColor: string, newMatchingColor: string)

  /** The markup entry the preview uses: what an empty rename template stands for. */
  datatype MarkupSettings = MarkupSettings(originalName: string)

  /** A file of the list: its fixed original name and extension, and the name and note
      the last engine run gave it. */
  datatype FileEntry = FileEntry(originalName: string, extension: string, name: string, note: string)

  /** What an engine run assigns to one file. */
  datatype Label = Label(name: string, note: string)

  /** The outcome of one engine run: a label per file, in list order, and the batch error. */
  datatype EngineRun = EngineRun(labels: seq<Label>, errorFound: string)

  /** A row of the preview list: the left and the right column. */
  datatype Row = Row(left: string, right: string)

  datatype RowKind = ErrorRow | WarningRow | PlainRow

  /** The inputs the refresh gates remember between ticks. */
  datatype GateMemory = GateMemory(
    prevRenameText: string, prevExistingText: string, prevReplaceText: string,
    activeStackName: string, isTheFirstPreviewLoop: bool)

  // ---------------------------------------------------------------------------------------
  // Refresh gates

  /** What the preview remembers right after construction from header `h`. */
  function InitialMemory(h: Header): GateMemory
  {
    GateMemory(h.renameText, h.existingText, h.replaceText, h.activeStack, true)
  }

  /** The rename tab's gate: refresh when the template or the tab changed, or on the first
      loop; then remember the template and the tab and leave the first loop behind. */
  function RenameGate(m: GateMemory, renameText: string, activeStack: string): (bool, GateMemory)
  {
    if renameText != m.prevRenameText || activeStack != m.activeStackName || m.isTheFirstPreviewLoop then
      (true, m.(prevRenameText := renameText, activeStackName := activeStack, isTheFirstPreviewLoop := false))
    else
      (false, m)
  }

  /** The replace tab's gate: refresh when the search text, the replace text or the tab
      changed; then remember them. */
  function ReplaceGate(m: GateMemory, searchText: string, replaceText: string, activeStack: string): (bool, GateMemory)
  {
    if searchText != m.prevExistingText || replaceText != m.prevReplaceText || activeStack != m.activeStackName then
      (true, m.(prevExistingText := searchText, prevReplaceText := replaceText, activeStackName := activeStack))
    else
      (false, m)
  }

  /** The gate one tick consults, chosen by the active tab. */
  function TickGate(m: GateMemory, h: Header): (bool, GateMemory)
  {
    if h.activeStack == RenameStack then RenameGate(m, h.renameText, h.activeStack)
    else ReplaceGate(m, h.existingText, h.replaceText, h.activeStack)
  }

  /** Whatever it answers, the rename gate leaves the current template and tab remembered and
      the first loop over; it never touches the replace tab's memory, and a gate that says
      "no refresh" changes nothing. */
  lemma RenameGateRecords(m: GateMemory, renameText: string, activeStack: string)
    ensures var (update, m') := RenameGate(m, renameText, activeStack);
      m'.prevRenameText == renameText && m'.activeStackName == activeStack && !m'.isTheFirstPreviewLoop &&
      m'.prevExistingText == m.prevExistingText && m'.prevReplaceText == m.prevReplaceText &&
      (!update ==> m' == m)
  {
  }

  /** Asking the rename gate twice with the same template and tab: the second answer is "no
      refresh" and leaves the memory as the first call left it. */
  lemma RenameGateIdempotent(m: GateMemory, renameText: string, activeStack: string)
    ensures var m1 := RenameGate(m, renameText, activeStack).1;
      RenameGate(m1, renameText, activeStack) == (false, m1)
  {
  }

  /** Whatever it answers, the replace gate leaves the current texts and tab remembered; it
      never reads or clears the first-loop flag and never touches the remembered template,
      and a gate that says "no refresh" changes nothing. */
  lemma ReplaceGateRecords(m: GateMemory, searchText: string, replaceText: string, activeStack: string)
    ensures var (update, m') := ReplaceGate(m, searchText, replaceText, activeStack);
      m'.prevExistingText == searchText && m'.prevReplaceText == replaceText && m'.activeStackName == activeStack &&
      m'.prevRenameText == m.prevRenameText && m'.isTheFirstPreviewLoop == m.isTheFirstPreviewLoop &&
      (!update ==> m' == m)
  {
  }

  /** The replace gate's answer does not depend on the first-loop flag. */
  lemma ReplaceGateIgnoresFirstLoop(m: GateMemory, searchText: string, replaceText: string, activeStack: string)
    ensures ReplaceGate(m, searchText, replaceText, activeStack).0 ==
            ReplaceGate(m.(isTheFirstPreviewLoop := !m.isTheFirstPreviewLoop), searchText, replaceText, activeStack).0
  {
  }

  /** Asking the replace gate twice with the same texts and tab: the second answer is "no
      refresh" and leaves the memory as the first call left it. */
  lemma ReplaceGateIdempotent(m: GateMemory, searchText: string, replaceText: string, activeStack: string)
    ensures var m1 := ReplaceGate(m, searchText, replaceText, activeStack).1;
      ReplaceGate(m1, searchText, replaceText, activeStack) == (false, m1)
  {
  }

  /** Two ticks with the same header reading: the second one neither refreshes nor changes
      what is remembered. */
  lemma TickSettles(m: GateMemory, h: Header)
    ensures var m1 := TickGate(m, h).1;
      TickGate(m1, h) == (false, m1)
  {
    if h.activeStack == RenameStack {
      RenameGateIdempotent(m, h.renameText, h.activeStack);
    } else {
      ReplaceGateIdempotent(m, h.existingText, h.replaceText, h.activeStack);
    }
  }

  /** Switching tabs always refreshes the preview. */
  lemma TabSwitchRefreshes(m: GateMemory, h: Header)
    requires h.activeStack != m.activeStackName
    ensures TickGate(m, h).0
  {
  }

  /** The first tick on the rename tab refreshes, whatever the header then reads; the first
      tick on another tab with the header as it was at construction does not, because the
      replace gate ignores the first-loop flag. */
  lemma FirstTick(h0: Header, h: Header)
    ensures h.activeStack == RenameStack ==> TickGate(InitialMemory(h0), h).0
    ensures h0.activeStack != RenameStack ==> !TickGate(InitialMemory(h0), h0).0
  {
  }

  // ---------------------------------------------------------------------------------------
  // Preparing an engine run

  /** The template handed to the rename engine: an empty one stands for the original name. */
  function EffectiveRenameText(renameText: string, markup: MarkupSettings): (r: string)
    ensures renameText != "" ==> r == renameText
    ensures renameText == "" ==> r == markup.originalName
    ensures r == "" ==> markup.originalName == ""
  {
    if renameText == "" then markup.originalName else renameText
  }

  /** The replacement handed to the replace engine and to the highlighter: nothing when there
      is nothing to search for. */
  function EffectiveReplaceText(searchText: string, replaceText: string): (r: string)
    ensures searchText == "" ==> r == ""
    ensures searchText != "" ==> r == replaceText
  {
    if searchText == "" then "" else replaceText
  }

  /** The engine's labels applied in list order: each file keeps its original name and
      extension and takes the name and note of its label. */
  function Relabel(files: seq<FileEntry>, labels: seq<Label>): (r: seq<FileEntry>)
    ensures |r| == |files|
    ensures forall i :: 0 <= i < |r| ==>
      r[i].originalName == files[i].originalName && r[i].extension == files[i].extension
    ensures forall i :: 0 <= i < |r| && i < |labels| ==>
      r[i].name == labels[i].name && r[i].note == labels[i].note
  {
    seq(|files|, i requires 0 <= i < |files| =>
      if i < |labels| then files[i].(name := labels[i].name, note := labels[i].note) else files[i])
  }

  /** The status the preview reports: the batch error when there is one, otherwise none. */
  function StatusOf(errorFound: string): (r: Option<string>)
    ensures r == None <==> errorFound == ""
    ensures r.Some? ==> r.value == errorFound
  {
    if errorFound != "" then Some(errorFound) else None
  }

  // ---------------------------------------------------------------------------------------
  // Rows

  /** How a file's row is marked, given its note and the batch error. */
  function Classify(note: string, errorFound: string): RowKind
  {
    if note != "" && note != HiddenFileError && note == errorFound then ErrorRow
    else if note != "" && note == HiddenFileError && note == errorFound then WarningRow
    else PlainRow
  }

  /** A row is marked only when its note is the batch error: an error arrow for any error but
      the hidden-file one, a warning arrow for the hidden-file one; a note that differs from
      the batch error, and every note in a batch without error, gets the plain arrow. */
  lemma ClassifyMeaning(note: string, errorFound: string)
    ensures Classify(note, errorFound) == ErrorRow <==>
      note == errorFound && errorFound != "" && errorFound != HiddenFileError
    ensures Classify(note, errorFound) == WarningRow <==>
      note == errorFound && errorFound == HiddenFileError
    ensures note != errorFound || errorFound == "" ==> Classify(note, errorFound) == PlainRow
  {
  }

  function ColoredArrow(color: string): string
  {
    "   <span color=\"" + color + "\">→</span> "
  }

  function Arrow(kind: RowKind, colors: ColorSettings): string
  {
    match kind
    case ErrorRow => ColoredArrow(colors.errorColor)
    case WarningRow => ColoredArrow(colors.warningColor)
    case PlainRow => PlainArrow
  }

  function HighlightOpen(color: string): string
  {
    "<span background=\"" + color + "\">"
  }

  /** The rename tab's row of a file: original name, then the arrow and the new name. */
  function RenameRow(f: FileEntry, errorFound: string, colors: ColorSettings): Row
  {
    Row(f.originalName + f.extension + Gap,
        Arrow(Classify(f.note, errorFound), colors) + f.name + f.extension)
  }

  /** The replace tab's row of a file: both columns are the original name with every match
      of the search text highlighted, on the left with the search text itself, on the right
      with the replacement. */
  function ReplaceRow(f: FileEntry, searchText: string, replaceText: string, errorFound: string,
                      colors: ColorSettings): Row
  {
    var oldName := ReplaceAll(f.originalName, searchText, HighlightOpen(colors.oldMatchingColor) + searchText + EndSpan);
    var newName := ReplaceAll(f.originalName, searchText, HighlightOpen(colors.newMatchingColor) + replaceText + EndSpan);
    Row(oldName + f.extension + Gap, Arrow(Classify(f.note, errorFound), colors) + newName + f.extension)
  }

  /** A file whose original name does not contain the (non-empty) search text shows that
      name unmodified in both columns. */
  lemma ReplaceRowUnmatched(f: FileEntry, searchText: string, replaceText: string, errorFound: string,
                            colors: ColorSettings)
    requires searchText != "" && !Occurs(searchText, f.originalName)
    ensures ReplaceRow(f, searchText, replaceText, errorFound, colors).left == f.originalName + f.extension + Gap
    ensures ReplaceRow(f, searchText, replaceText, errorFound, colors).right ==
      Arrow(Classify(f.note, errorFound), colors) + f.originalName + f.extension
  {
    ReplaceAbsent(f.originalName, searchText, HighlightOpen(colors.oldMatchingColor) + searchText + EndSpan);
    ReplaceAbsent(f.originalName, searchText, HighlightOpen(colors.newMatchingColor) + replaceText + EndSpan);
  }

  /** The replace tab shows the literal replacement, not the engine's proposed name: only the
      note of the engine's label reaches the row. */
  lemma ReplaceRowIgnoresProposedName(f: FileEntry, name: string, searchText: string, replaceText: string,
                                      errorFound: string, colors: ColorSettings)
    ensures ReplaceRow(f.(name := name), searchText, replaceText, errorFound, colors) ==
            ReplaceRow(f, searchText, replaceText, errorFound, colors)
  {
  }

  /** The rename tab's list: one row per file, in list order. */
  method BuildRenameRows(files: seq<FileEntry>, errorFound: string, colors: ColorSettings)
    returns (listStore: seq<Row>)
    ensures |listStore| == |files|
    ensures forall i :: 0 <= i < |files| ==>
      listStore[i].left == files[i].originalName + files[i].extension + Gap
    ensures forall i :: 0 <= i < |files| ==>
      listStore[i].right == Arrow(Classify(files[i].note, errorFound), colors) + files[i].name + files[i].extension
  {
    // The loop follows the source's if/elif/else chain; `RenameRow` (through `Classify` and
    // `Arrow`) is its closed form, which the invariant ties it to.
    listStore := [];
    for k := 0 to |files|
      invariant |listStore| == k
      invariant forall i :: 0 <= i < k ==> listStore[i] == RenameRow(files[i], errorFound, colors)
    {
      var f := files[k];
      var note := f.note;
      if note != "" && note != HiddenFileError && note == errorFound {
        var prefix := ColoredArrow(colors.errorColor);
        listStore := listStore + [Row(f.originalName + f.extension + Gap, prefix + f.name + f.extension)];
      } else if note != "" && note == HiddenFileError && note == errorFound {
        var prefix := ColoredArrow(colors.warningColor);
        listStore := listStore + [Row(f.originalName + f.extension + Gap, prefix + f.name + f.extension)];
      } else {
        listStore := listStore + [Row(f.originalName + f.extension + Gap, PlainArrow + f.name + f.extension)];
      }
    }
  }

  /** The replace tab's list: one row per file, in list order, with the matches of the
      search text highlighted. */
  method BuildReplaceRows(files: seq<FileEntry>, searchText: string, replaceText: string, errorFound: string,
                          colors: ColorSettings)
    returns (listStore: seq<Row>)
    ensures |listStore| == |files|
    ensures forall i :: 0 <= i < |files| ==>
      listStore[i] == ReplaceRow(files[i], searchText, replaceText, errorFound, colors)
  {
    // The loop follows the source's if/elif/else chain; `ReplaceRow` (through `Classify` and
    // `Arrow`) is its closed form, which the invariant ties it to.
    var oldColor := HighlightOpen(colors.oldMatchingColor);
    var newColor := HighlightOpen(colors.newMatchingColor);
    listStore := [];
    for k := 0 to |files|
      invariant |listStore| == k
      invariant forall i :: 0 <= i < k ==>
        listStore[i] == ReplaceRow(files[i], searchText, replaceText, errorFound, colors)
    {
      var file := files[k];
      var note := file.note;
      var oldName := ReplaceAll(file.originalName, searchText, oldColor + searchText + EndSpan);
      var newName := ReplaceAll(file.originalName, searchText, newColor + replaceText + EndSpan);
      if note != "" && note != HiddenFileError && note == errorFound {
        var prefix := ColoredArrow(colors.errorColor);
        listStore := listStore + [Row(oldName + file.extension + Gap, prefix + newName + file.extension)];
      } else if note != "" && note == HiddenFileError && note == errorFound {
        var prefix := ColoredArrow(colors.warningColor);
        listStore := listStore + [Row(oldName + file.extension + Gap, prefix + newName + file.extension)];
      } else {
        listStore := listStore + [Row(oldName + file.extension + Gap, PlainArrow + newName + file.extension)];
      }
    }
  }

  // ---------------------------------------------------------------------------------------
  // The controller

  class Preview {
    const colorSettings: ColorSettings
    const markupSettings: MarkupSettings
    var fileList: seq<FileEntry>
    var statusError: Option<string>
    /** The rows the tree view shows (empty until the first refresh). */
    var rows: seq<Row>

    var prevRenameText: string
    var prevExistingText: string
    var prevReplaceText: string
    var activeStackName: string
    var isTheFirstPreviewLoop: bool

    ghost function Remembered(): GateMemory
      reads this
    {
      GateMemory(prevRenameText, prevExistingText, prevReplaceText, activeStackName, isTheFirstPreviewLoop)
    }

    /** The state a rename refresh leaves behind, starting from file list `before`. */
    ghost predicate ShowsRename(before: seq<FileEntry>, renameText: string,
                                rename: (seq<FileEntry>, string) -> EngineRun)
      reads this
    {
      var run := rename(before, EffectiveRenameText(renameText, markupSettings));
      fileList == Relabel(before, run.labels) &&
      statusError == StatusOf(run.errorFound) &&
      |rows| == |fileList| &&
      forall i :: 0 <= i < |rows| ==> rows[i] == RenameRow(fileList[i], run.errorFound, colorSettings)
    }

    /** The state a replace refresh leaves behind, starting from file list `before`. */
    ghost predicate ShowsReplace(before: seq<FileEntry>, searchText: string, replaceText: string,
                                 replace: (seq<FileEntry>, string, string) -> EngineRun)
      reads this
    {
      var effective := EffectiveReplaceText(searchText, replaceText);
      var run := replace(before, searchText, effective);
      fileList == Relabel(before, run.labels) &&
      statusError == StatusOf(run.errorFound) &&
      |rows| == |fileList| &&
      forall i :: 0 <= i < |rows| ==>
        rows[i] == ReplaceRow(fileList[i], searchText, effective, run.errorFound, colorSettings)
    }

    /** Remembers the header as it reads now and arms the first-loop flag. */
    constructor (header: Header, colorSettings: ColorSettings, markupSettings: MarkupSettings,
                 fileList: seq<FileEntry>)
      ensures Remembered() == InitialMemory(header)
      ensures this.colorSettings == colorSettings && this.markupSettings == markupSettings
      ensures this.fileList == fileList && statusError == None && rows == []
    {
      this.colorSettings := colorSettings;
      this.markupSettings := markupSettings;
      this.fileList := fileList;
      statusError := None;
      rows := [];
      prevRenameText := header.renameText;
      prevExistingText := header.existingText;
      prevReplaceText := header.replaceText;
      activeStackName := header.activeStack;
      isTheFirstPreviewLoop := true;
    }

    /** The rename tab's gate, on the fields. */
    method CanUpdateRenamePreview(renameText: string, activeStack: string) returns (update: bool)
      modifies this`prevRenameText, this`activeStackName, this`isTheFirstPreviewLoop
      ensures update <==>
        renameText != old(prevRenameText) || activeStack != old(activeStackName) || old(isTheFirstPreviewLoop)
      ensures prevRenameText == renameText && activeStackName == activeStack && !isTheFirstPreviewLoop
      ensures !update ==> Remembered() == old(Remembered())
      ensures (update, Remembered()) == RenameGate(old(Remembered()), renameText, activeStack)
    {
      var condition := [renameText != prevRenameText, activeStack != activeStackName, isTheFirstPreviewLoop];
      if true in condition {
        if prevRenameText != renameText {
          prevRenameText := renameText;
        }
        if activeStack != activeStackName {
          activeStackName := activeStack;
        }
        if isTheFirstPreviewLoop {
          isTheFirstPreviewLoop := false;
        }
        return true;
      }
      return false;
    }

    /** The replace tab's gate, on the fields; the first-loop flag and the remembered template
        are outside its frame. */
    method CanUpdateReplacePreview(searchText: string, replaceText: string, activeStack: string)
      returns (update: bool)
      modifies this`prevExistingText, this`prevReplaceText, this`activeStackName
      ensures update <==>
        searchText != old(prevExistingText) || replaceText != old(prevReplaceText) || activeStack != old(activeStackName)
      ensures prevExistingText == searchText && prevReplaceText == replaceText && activeStackName == activeStack
      ensures !update ==> Remembered() == old(Remembered())
      ensures (update, Remembered()) == ReplaceGate(old(Remembered()), searchText, replaceText, activeStack)
    {
      var condition := [searchText != prevExistingText, replaceText != prevReplaceText, activeStack != activeStackName];
      if true in condition {
        if searchText != prevExistingText {
          prevExistingText := searchText;
        }
        if replaceText != prevReplaceText {
          prevReplaceText := replaceText;
        }
        if activeStack != activeStackName {
          activeStackName := activeStack;
        }
        return true;
      }
      return false;
    }

    /** Runs the rename engine with the effective template, records the batch status and
        rebuilds the rows. */
    method RenamePreview(renameText: string, rename: (seq<FileEntry>, string) -> EngineRun)
      modifies this`fileList, this`statusError, this`rows
      ensures ShowsRename(old(fileList), renameText, rename)
    {
      var text := renameText;
      if text == "" {
        text := markupSettings.originalName;
      }
      var run := rename(fileList, text);
      fileList := Relabel(fileList, run.labels);
      var errorFound := run.errorFound;
      if errorFound != "" {
        statusError := Some(errorFound);
      } else {
        statusError := None;
      }
      rows := BuildRenameRows(fileList, errorFound, colorSettings);
    }

    /** Runs the replace engine with the effective texts, records the batch status and
        rebuilds the rows with highlighted matches. */
    method ReplacePreview(searchText: string, replaceText: string,
                          replace: (seq<FileEntry>, string, string) -> EngineRun)
      modifies this`fileList, this`statusError, this`rows
      ensures ShowsReplace(old(fileList), searchText, replaceText, replace)
    {
      var effective := replaceText;
      if searchText == "" {
        effective := "";
      }
      var run := replace(fileList, searchText, effective);
      fileList := Relabel(fileList, run.labels);
      var errorFound := run.errorFound;
      if errorFound != "" {
        statusError := Some(errorFound);
      } else {
        statusError := None;
      }
      rows := BuildReplaceRows(fileList, searchText, effective, errorFound, colorSettings);
    }

    /** One pass of the refresh loop: consult the active tab's gate and refresh only when
        it says so. */
    method Tick(header: Header, rename: (seq<FileEntry>, string) -> EngineRun,
                replace: (seq<FileEntry>, string, string) -> EngineRun)
      modifies this
      ensures Remembered() == TickGate(old(Remembered()), header).1
      ensures !TickGate(old(Remembered()), header).0 ==>
        fileList == old(fileList) && statusError == old(statusError) && rows == old(rows)
      ensures TickGate(old(Remembered()), header).0 && header.activeStack == RenameStack ==>
        ShowsRename(old(fileList), header.renameText, rename)
      ensures TickGate(old(Remembered()), header).0 && header.activeStack != RenameStack ==>
        ShowsReplace(old(fileList), header.existingText, header.replaceText, replace)
    {
      if header.activeStack == RenameStack {
        var update := CanUpdateRenamePreview(header.renameText, header.activeStack);
        if update {
          RenamePreview(header.renameText, rename);
        }
      } else {
        var update := CanUpdateReplacePreview(header.existingText, header.replaceText, header.activeStack);
        if update {
          ReplacePreview(header.existingText, header.replaceText, replace);
        }
      }
    }

    /** Replaces the file list; what the gates remember, and so whether the next tick
        refreshes, is left as it was. */
    method SetFileList(fileList: seq<FileEntry>)
      modifies this`fileList
      ensures this.fileList == fileList
      ensures Remembered() == old(Remembered())
    {
      this.fileList := fileList;
    }
  }

  /** A new file list is not previewed by itself: when the header reads as the gates
      remember it (the first loop spent), the next tick leaves the rows describing the old
      list while the controller already holds the new one, and leaves the gate memory as
      it was, so every later tick with the same header reading does the same. */
  method NewListAwaitsInputChange(preview: Preview, files: seq<FileEntry>, header: Header,
                                  rename: (seq<FileEntry>, string) -> EngineRun,
                                  replace: (seq<FileEntry>, string, string) -> EngineRun)
    requires !TickGate(preview.Remembered(), header).0
    modifies preview
    ensures preview.fileList == files && preview.rows == old(preview.rows)
    ensures preview.statusError == old(preview.statusError)
    ensures preview.Remembered() == old(preview.Remembered())
  {
    preview.SetFileList(files);
    preview.Tick(header, rename, replace);
  }
}
