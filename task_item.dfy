/** The row that shows one task (components/Task.tsx): a click toggles the
    task after a short delay, a double click opens an editor, Enter or
    leaving the editor submits the edited name, and Escape abandons it. */
module TaskItem {
  import opened Types
  import opened JsString

  /** A call the row makes to the dashboard's handlers. */
  datatype Callback =
    | Rename(listId: string, taskId: string, newName: string)
    | Toggle(listId: string, taskId: string, isCompleted: bool)
    | Remove(listId: string, taskId: string)

  /** The keys the editor reacts to; every other key is `OtherKey`. */
  datatype Key = Enter | Escape | OtherKey

  /** The guard of `handleSubmit`: the name to send, if any. */
  function RenameTarget(editedName: string, taskName: string): (r: Option<string>)
    ensures r.Some? <==> Trim(editedName) != [] && Trim(editedName) != taskName
    ensures r.Some? ==> r.value == Trim(editedName)
  {
    var trimmed := Trim(editedName);
    if trimmed != [] && trimmed != taskName then Some(trimmed) else None
  }

  /** A name that is sent neither starts nor ends with white space, and
      submitting it again once it is the task's name sends nothing. */
  lemma RenameTargetSettles(editedName: string, taskName: string)
    requires RenameTarget(editedName, taskName).Some?
    ensures var n := RenameTarget(editedName, taskName).value;
      n != [] && !IsSpace(n[0]) && !IsSpace(n[|n| - 1]) && RenameTarget(n, n).None?
  {
    TrimIdempotent(editedName);
  }

  /** Adding white space around the current name, or typing only white
      space, sends nothing. */
  lemma PaddingIsNoRename(pre: string, taskName: string, post: string)
    requires AllSpace(pre) && AllSpace(post)
    requires Trim(taskName) == taskName
    ensures RenameTarget(pre + taskName + post, taskName).None?
    ensures RenameTarget(pre + post, taskName).None?
  {
    TrimIgnoresPadding(pre, taskName, post);
    TrimIgnoresPadding(pre, [], post);
    assert pre + [] + post == pre + post;
  }

  /** The guard compares the trimmed text with the task's name as stored,
      which nothing trims: submitting a padded name untouched renames the
      task to its trimmed form. */
  lemma UntouchedPaddedNameRenames(taskName: string)
    requires Trim(taskName) != [] && Trim(taskName) != taskName
    ensures RenameTarget(taskName, taskName) == Some(Trim(taskName))
  {
  }

  /** The range of `Math.floor(Math.random() * 12) - 6`, the slant of the
      strike-through line. */
  predicate IsDraw(d: int) {
    -6 <= d < 6
  }

  class TaskView {
    const id: string
    const listId: string
    /** The props the dashboard passes down. */
    var taskName: string
    var isCompleted: bool
    /** The component's own state. */
    var isEditing: bool
    var editedName: string
    var lineOffset: int
    /** `clickTimeoutRef`: the toggle a click has armed and that has neither
        fired nor been cleared, holding the `isCompleted` its closure saw. */
    var pendingToggle: Option<bool>
    /** The session-storage entry `task-line-offset-<id>`. */
    var storedOffset: Option<int>

    /** Mounting the row: the `lineOffset` initialiser reads the stored
        offset of a completed task, or draws and stores one. */
    constructor(id: string, listId: string, taskName: string, isCompleted: bool, stored: Option<int>, draw: int)
      requires IsDraw(draw)
      ensures this.id == id && this.listId == listId
      ensures this.taskName == taskName && this.isCompleted == isCompleted
      ensures !isEditing && editedName == taskName && pendingToggle == None
      ensures lineOffset == (if !isCompleted then 0 else if stored.Some? then stored.value else draw)
      ensures storedOffset == (if isCompleted && stored.None? then Some(draw) else stored)
    {
      this.id := id;
      this.listId := listId;
      this.taskName := taskName;
      this.isCompleted := isCompleted;
      isEditing := false;
      editedName := taskName;
      pendingToggle := None;
      if isCompleted {
        if stored.Some? {
          lineOffset := stored.value;
          storedOffset := stored;
        } else {
          lineOffset := draw;
          storedOffset := Some(draw);
        }
      } else {
        lineOffset := 0;
        storedOffset := stored;
      }
    }

    /** The dashboard re-renders the row with new props; the two effects
        run for the props that changed. A new `taskName` replaces the edited
        name; a task that became completed takes its stored offset, or draws
        and stores one. */
    method ReceiveProps(newName: string, newCompleted: bool, draw: int)
      requires IsDraw(draw)
      modifies this`taskName, this`isCompleted, this`editedName, this`lineOffset, this`storedOffset
      ensures taskName == newName && isCompleted == newCompleted
      ensures editedName == if newName != old(taskName) then newName else old(editedName)
      ensures var became := newCompleted && !old(isCompleted);
        (became ==> lineOffset == (if old(storedOffset).Some? then old(storedOffset).value else draw)) &&
        (became ==> storedOffset == Some(lineOffset)) &&
        (!became ==> lineOffset == old(lineOffset) && storedOffset == old(storedOffset))
    {
      if newName != taskName {
        editedName := newName;
      }
      if newCompleted != isCompleted && newCompleted {
        if storedOffset.Some? {
          lineOffset := storedOffset.value;
        } else {
          lineOffset := draw;
          storedOffset := Some(draw);
        }
      }
      taskName := newName;
      isCompleted := newCompleted;
    }

    /** `handleClick`: a click on a button or an input is ignored, and so
        is one that never reaches the row (the editor stops it); any other
        click clears the armed toggle and arms a new one that will send the
        opposite of the completion the row shows now. */
    method Click(onControl: bool)
      modifies this`pendingToggle
      ensures pendingToggle == if onControl then old(pendingToggle) else Some(isCompleted)
    {
      if !onControl {
        pendingToggle := Some(isCompleted);
      }
    }

    /** The armed toggle's timer fires. Completing draws and stores a new
        offset; un-completing removes the stored one. Either way the
        dashboard is asked to set the opposite of what the click saw. */
    method ToggleTimerFires(draw: int) returns (call: Option<Callback>)
      requires IsDraw(draw)
      modifies this`pendingToggle, this`lineOffset, this`storedOffset
      ensures pendingToggle == None
      ensures old(pendingToggle).None? ==> call.None? && unchanged(this)
      ensures old(pendingToggle).Some? ==> var was := old(pendingToggle).value;
        call == Some(Toggle(listId, id, !was)) &&
        (!was ==> lineOffset == draw && storedOffset == Some(draw)) &&
        (was ==> lineOffset == old(lineOffset) && storedOffset == None)
    {
      call := None;
      match pendingToggle
      case None =>
      case Some(was) =>
        if !was {
          lineOffset := draw;
          storedOffset := Some(draw);
        } else {
          storedOffset := None;
        }
        call := Some(Toggle(listId, id, !was));
        pendingToggle := None;
    }

    /** `handleDoubleClick`: the armed toggle is cleared and the editor
        opens. */
    method DoubleClick()
      modifies this`pendingToggle, this`isEditing
      ensures pendingToggle == None && isEditing
    {
      pendingToggle := None;
      isEditing := true;
    }

    /** Typing in the editor. */
    method Change(value: string)
      modifies this`editedName
      ensures editedName == value
    {
      editedName := value;
    }

    /** `handleSubmit`: a rename goes out only for a trimmed name that is
        not empty and not the current name, and it carries the trimmed
        name; otherwise the edited name goes back to the task's name. The
        editor closes in both cases. */
    method Submit() returns (call: Option<Callback>)
      modifies this`editedName, this`isEditing
      ensures !isEditing
      ensures call.Some? <==> Trim(old(editedName)) != [] && Trim(old(editedName)) != taskName
      ensures call.Some? ==> call.value == Rename(listId, id, Trim(old(editedName))) && editedName == old(editedName)
      ensures call.None? ==> editedName == taskName
    {
      call := None;
      match RenameTarget(editedName, taskName) {
        case Some(name) =>
          call := Some(Rename(listId, id, name));
        case None =>
          editedName := taskName;
      }
      isEditing := false;
    }

    /** Escape: the editor closes and the edit is dropped. */
    method Cancel()
      modifies this`editedName, this`isEditing
      ensures !isEditing && editedName == taskName
    {
      isEditing := false;
      editedName := taskName;
    }

    /** `handleKeyDown`: Enter submits, Escape cancels. */
    method KeyDown(key: Key) returns (call: Option<Callback>)
      modifies this`editedName, this`isEditing
      ensures key == OtherKey ==> call.None? && unchanged(this)
      ensures key != OtherKey ==> !isEditing
      ensures key == Escape ==> call.None? && editedName == taskName
      ensures key == Enter ==> (call.Some? <==> Trim(old(editedName)) != [] && Trim(old(editedName)) != taskName)
      ensures key == Enter && call.Some? ==>
        call.value == Rename(listId, id, Trim(old(editedName))) && editedName == old(editedName)
      ensures key == Enter && call.None? ==> editedName == taskName
    {
      call := None;
      if key == Enter {
        call := Submit();
      } else if key == Escape {
        Cancel();
      }
    }

    /** The editor's own key handler: Enter without Shift submits, Escape
        cancels; Shift+Enter is left to the text area. */
    method EditorKeyDown(key: Key, shift: bool) returns (call: Option<Callback>)
      modifies this`editedName, this`isEditing
      ensures key == Enter && !shift ==>
        !isEditing && (call.Some? <==> Trim(old(editedName)) != [] && Trim(old(editedName)) != taskName)
      ensures key == Enter && !shift && call.Some? ==>
        call.value == Rename(listId, id, Trim(old(editedName))) && editedName == old(editedName)
      ensures key == Enter && !shift && call.None? ==> editedName == taskName
      ensures key == Escape ==> call.None? && !isEditing && editedName == taskName
      ensures key == OtherKey || (key == Enter && shift) ==> call.None? && unchanged(this)
    {
      call := None;
      if key == Enter && !shift {
        call := Submit();
      } else if key == Escape {
        Cancel();
      }
    }

    /** The delete button: the click stops there, so no toggle is armed. */
    method DeleteButton() returns (call: Callback)
      ensures call == Remove(listId, id)
    {
      call := Remove(listId, id);
    }

    /** Leaving the editor submits it. */
    method Blur() returns (call: Option<Callback>)
      modifies this`editedName, this`isEditing
      ensures !isEditing
      ensures call.Some? <==> Trim(old(editedName)) != [] && Trim(old(editedName)) != taskName
      ensures call.Some? ==> call.value == Rename(listId, id, Trim(old(editedName))) && editedName == old(editedName)
      ensures call.None? ==> editedName == taskName
    {
      call := Submit();
    }
  }

  /** A double click on the name (two clicks, then the double click, all
      before the timer) keeps the task as it was: no toggle reaches the
      dashboard, and the editor is open. */
  method DoubleClickCancelsToggle(t: TaskView, draw: int) returns (call: Option<Callback>)
    requires IsDraw(draw)
    modifies t
    ensures call.None? && t.isEditing && t.isCompleted == old(t.isCompleted)
    ensures t.taskName == old(t.taskName) && t.editedName == old(t.editedName)
    ensures t.lineOffset == old(t.lineOffset) && t.storedOffset == old(t.storedOffset)
  {
    t.Click(false);
    t.Click(false);
    t.DoubleClick();
    call := t.ToggleTimerFires(draw);
  }

  /** A single click on the name asks the dashboard for the opposite of the
      completion shown when it was clicked. */
  method ClickTogglesOnce(t: TaskView, draw: int) returns (call: Option<Callback>)
    requires IsDraw(draw)
    modifies t
    ensures call == Some(Toggle(t.listId, t.id, !old(t.isCompleted))) && t.pendingToggle == None
    ensures old(t.isCompleted) ==> t.lineOffset == old(t.lineOffset) && t.storedOffset == None
    ensures !old(t.isCompleted) ==> t.lineOffset == draw && t.storedOffset == Some(draw)
    // the row itself waits for the dashboard's new props
    ensures t.isCompleted == old(t.isCompleted) && t.taskName == old(t.taskName)
    ensures t.isEditing == old(t.isEditing) && t.editedName == old(t.editedName)
  {
    t.Click(false);
    call := t.ToggleTimerFires(draw);
  }
}
