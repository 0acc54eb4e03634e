/**
 * The editing session of one checklist (src/pages/ChecklistPage.tsx): the
 * item sequence, the title and the focused row, changed by the keyboard,
 * the row controls, the buttons under the list and the floating toolbar.
 * Every handler keeps the sequence non-empty and the focus on an existing row.
 */
module Editor {
  import opened Types
  import opened Outline
  import DataService
  import NodeEditing
  import Toolbar

  /** The keys the editor reacts to; every other key is ordinary typing. */
  datatype Key = Enter | Backspace | Tab | OtherKey

  /** The edit a key press makes, and whether the key's default action is suppressed. */
  datatype KeyOutcome = KeyOutcome(edit: Edit, consumed: bool)

  /**
   * Key handling at row `index`: Enter inserts a task after the row,
   * Backspace deletes the row only when its text is empty, Tab indents and
   * Shift+Tab outdents (clamped to [0, 6]); other keys change nothing.
   */
  function KeyDown(items: seq<Item>, index: int, key: Key, shift: bool, freshId: string): (r: KeyOutcome)
    requires 0 <= index < |items|
    ensures r.consumed <==> key == Enter || key == Tab || (key == Backspace && items[index].text == "")
    ensures !r.consumed ==> r.edit == Edit(items, None)
    ensures key == Enter ==> r.edit == InsertAfter(items, index, TaskRow, freshId)
    ensures key == Backspace && items[index].text == "" ==> r.edit == DeleteAt(items, index)
    ensures key == Tab ==>
      && r.edit.focus.None?
      && r.edit.items == UpdateAt(items, index, NoChange.(indent := Some(
           if shift then Outdented(items[index].indent) else Indented(items[index].indent))))
    ensures |r.edit.items| >= 1
    ensures r.edit.focus.Some? ==> r.edit.focus.value < |r.edit.items|
  {
    match key
    case Enter => KeyOutcome(InsertAfter(items, index, TaskRow, freshId), true)
    case Backspace =>
      if items[index].text == "" then KeyOutcome(DeleteAt(items, index), true)
      else KeyOutcome(Edit(items, None), false)
    case Tab =>
      var indent := if shift then Outdented(items[index].indent) else Indented(items[index].indent);
      KeyOutcome(Edit(UpdateAt(items, index, NoChange.(indent := Some(indent))), None), true)
    case OtherKey => KeyOutcome(Edit(items, None), false)
  }

  /** Tab and Shift+Tab change only the indent of the row, and keep it in [0, 6]. */
  lemma TabKeepsIndentInRange(items: seq<Item>, index: int, shift: bool, freshId: string)
    requires 0 <= index < |items| && 0 <= items[index].indent <= MaxIndent
    ensures var r := KeyDown(items, index, Tab, shift, freshId).edit.items;
      && 0 <= r[index].indent <= MaxIndent
      && r[index].(indent := items[index].indent) == items[index]
      && (shift && items[index].indent == 0 ==> r == items)
      && (!shift && items[index].indent == MaxIndent ==> r == items)
  {
    var r := KeyDown(items, index, Tab, shift, freshId).edit.items;
    IndentClamping(items[index].indent);
    if (shift && items[index].indent == 0) || (!shift && items[index].indent == MaxIndent) {
      assert r[index] == items[index];
      assert forall k :: 0 <= k < |r| ==> r[k] == items[k];
    }
  }

  /** Loaded content with no items is replaced by one initial item. */
  function StartItems(loaded: seq<Item>, freshId: string): (r: seq<Item>)
    ensures |r| >= 1
    ensures |loaded| > 0 ==> r == loaded
    ensures |loaded| == 0 ==> r == [DataService.GenerateInitialItem(freshId)]
  {
    if |loaded| > 0 then loaded else [DataService.GenerateInitialItem(freshId)]
  }

  class Session {
    var title: string
    var items: seq<Item>
    var focusedIndex: Option<nat>

    /** Never empty while being edited, and the focus, if any, is on an existing row. */
    ghost predicate Valid()
      reads this
    {
      |items| >= 1 && (focusedIndex.Some? ==> focusedIndex.value < |items|)
    }

    /** Opening a checklist that was found: its title, and its items or one initial item. */
    constructor Open(doc: ParsedChecklist, freshId: string)
      ensures Valid()
      ensures title == doc.title && items == StartItems(doc.items, freshId) && focusedIndex == None
    {
      title := doc.title;
      items := StartItems(doc.items, freshId);
      focusedIndex := None;
    }

    method SetTitle(t: string)
      modifies this
      ensures title == t && items == old(items) && focusedIndex == old(focusedIndex)
    {
      title := t;
    }

    /** A row receives the focus. */
    method Focus(index: nat)
      requires Valid() && index < |items|
      modifies this
      ensures Valid()
      ensures focusedIndex == Some(index) && items == old(items) && title == old(title)
    {
      focusedIndex := Some(index);
    }

    /** `updateItem`: merge an update into one row. */
    method Change(index: nat, u: ItemUpdate)
      requires Valid() && index < |items|
      modifies this
      ensures Valid()
      ensures items == UpdateAt(old(items), index, u)
      ensures focusedIndex == old(focusedIndex) && title == old(title)
    {
      items := UpdateAt(items, index, u);
    }

    /** Typing into row `index`: the update the row emits for the new text. */
    method TypeText(index: nat, val: string)
      requires Valid() && index < |items|
      modifies this
      ensures Valid()
      ensures items == UpdateAt(old(items), index, NodeEditing.HandleChange(old(items)[index], val))
      ensures focusedIndex == old(focusedIndex) && title == old(title)
    {
      Change(index, NodeEditing.HandleChange(items[index], val));
    }

    /** Clicking the check box of row `index`. */
    method ClickCheckbox(index: nat)
      requires Valid() && index < |items|
      modifies this
      ensures Valid()
      ensures items == UpdateAt(old(items), index, NodeEditing.CheckboxClick(old(items)[index]))
      ensures focusedIndex == old(focusedIndex) && title == old(title)
    {
      Change(index, NodeEditing.CheckboxClick(items[index]));
    }

    /** Applies an edit: the new items, and the new focus when the edit moves it. */
    method Apply(e: Edit)
      requires Valid() && |e.items| >= 1 && (e.focus.Some? ==> e.focus.value < |e.items|)
      requires e.focus.None? ==> |e.items| == |items|
      modifies this
      ensures Valid()
      ensures items == e.items && focusedIndex == (if e.focus.Some? then e.focus else old(focusedIndex))
      ensures title == old(title)
    {
      items := e.items;
      if e.focus.Some? {
        focusedIndex := e.focus;
      }
    }

    /** `handleKeyDown` at row `index`; returns whether the key's default action was suppressed. */
    method KeyPress(index: nat, key: Key, shift: bool, freshId: string) returns (consumed: bool)
      requires Valid() && index < |items|
      modifies this
      ensures Valid()
      ensures var r := KeyDown(old(items), index, key, shift, freshId);
        && consumed == r.consumed && items == r.edit.items
        && focusedIndex == (if r.edit.focus.Some? then r.edit.focus else old(focusedIndex))
      ensures title == old(title)
    {
      var r := KeyDown(items, index, key, shift, freshId);
      Apply(r.edit);
      consumed := r.consumed;
    }

    /** The "uncheck all" button. */
    method UncheckEverything()
      requires Valid()
      modifies this
      ensures Valid()
      ensures items == UncheckAll(old(items))
      ensures focusedIndex == old(focusedIndex) && title == old(title)
    {
      items := UncheckAll(items);
    }

    /** The collapse chevron of row `index`. */
    method ToggleCollapseAt(index: nat)
      requires Valid() && index < |items|
      modifies this
      ensures Valid()
      ensures items == ToggleCollapse(old(items), index)
      ensures focusedIndex == old(focusedIndex) && title == old(title)
    {
      items := ToggleCollapse(items, index);
    }

    /** The "add row" and "add section" buttons under the list: insert after the last row. */
    method AddAtEnd(kind: InsertKind, freshId: string)
      requires Valid()
      modifies this
      ensures Valid()
      ensures items == InsertAfter(old(items), |old(items)| - 1, kind, freshId).items
      ensures focusedIndex == Some(|old(items)|)
      ensures title == old(title)
    {
      Apply(InsertAfter(items, |items| - 1, kind, freshId));
    }

    /**
     * A press on the floating toolbar, which exists only while a row has the
     * focus; it acts on the focused row.
     */
    method ToolbarPress(b: Toolbar.Button)
      requires Valid()
      modifies this
      ensures Valid()
      ensures old(focusedIndex).None? ==> items == old(items) && focusedIndex == None
      ensures old(focusedIndex).Some? ==>
        var f := old(focusedIndex).value;
        var cur := old(items)[f];
        match Toolbar.Press(true, cur.nodeType, b).value
        case Indent =>
          items == UpdateAt(old(items), f, NoChange.(indent := Some(Indented(cur.indent))))
          && focusedIndex == old(focusedIndex)
        case Outdent =>
          items == UpdateAt(old(items), f, NoChange.(indent := Some(Outdented(cur.indent))))
          && focusedIndex == old(focusedIndex)
        case SetType(t) =>
          items == UpdateAt(old(items), f, NoChange.(nodeType := Some(t)))
          && focusedIndex == old(focusedIndex)
        case Delete =>
          var d := DeleteAt(old(items), f);
          items == d.items && focusedIndex == (if d.focus.Some? then d.focus else old(focusedIndex))
      ensures title == old(title)
    {
      if focusedIndex.None? {
        return;
      }
      var f := focusedIndex.value;
      var cur := items[f];
      var action := Toolbar.Press(true, cur.nodeType, b).value;
      match action
      case Indent => Change(f, NoChange.(indent := Some(Indented(cur.indent))));
      case Outdent => Change(f, NoChange.(indent := Some(Outdented(cur.indent))));
      case SetType(t) => Change(f, NoChange.(nodeType := Some(t)));
      case Delete => Apply(DeleteAt(items, f));
    }
  }

  /** What an autosave sends: the title and the items, encoded. */
  datatype Snapshot = Snapshot(title: string, content: Content)

  /**
   * The debounced autosave, without time: at most one pending save, which
   * every new change replaces; the "saving" flag is raised when a save is
   * scheduled and lowered when a sent save settles, successful or not.
   */
  class Autosave {
    var pending: Option<Snapshot>
    var saving: bool

    constructor ()
      ensures pending == None && !saving
    {
      pending := None;
      saving := false;
    }

    /** A change to the title or the items: the newest snapshot replaces any pending one. */
    method Schedule(title: string, items: seq<Item>)
      modifies this
      ensures pending == Some(Snapshot(title, Encoded(items))) && saving
    {
      pending := Some(Snapshot(title, Encoded(items)));
      saving := true;
    }

    /** The delay elapsed: the pending snapshot, if any, is sent. */
    method Fire() returns (sent: Option<Snapshot>)
      modifies this
      ensures sent == old(pending) && pending == None && saving == old(saving)
    {
      sent := pending;
      pending := None;
    }

    /** The sent save finished (or failed, which is only logged). */
    method Settle()
      modifies this
      ensures !saving && pending == old(pending)
    {
      saving := false;
    }
  }
}
