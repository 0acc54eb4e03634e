/**
 * One outline row (src/components/ChecklistNode.tsx): how a text change
 * becomes an item update, with the live markdown retyping of "# ", "## "
 * and "### ", and which controls the row shows.
 */
module NodeEditing {
  import opened Types

  /** The heading level a whole-text trigger asks for, if the text is one. */
  function HeadingTrigger(val: string): Option<NodeType> {
    if val == "# " then Some(H1)
    else if val == "## " then Some(H2)
    else if val == "### " then Some(H3)
    else None
  }

  /**
   * The single update a text change emits. A trigger for a level the node
   * does not already have empties the text and retypes the node; anything
   * else, including the trigger of the node's own level, is stored verbatim.
   */
  function HandleChange(item: Item, val: string): (u: ItemUpdate)
    ensures u.id.None? && u.indent.None? && u.checked.None? && u.collapsed.None?
    ensures u.text.Some?
    ensures HeadingTrigger(val).Some? && HeadingTrigger(val).value != item.nodeType ==>
      u.text == Some("") && u.nodeType == HeadingTrigger(val)
    ensures HeadingTrigger(val).None? || HeadingTrigger(val).value == item.nodeType ==>
      u.text == Some(val) && u.nodeType.None?
  {
    if val == "# " && item.nodeType != H1 then NoChange.(text := Some(""), nodeType := Some(H1))
    else if val == "## " && item.nodeType != H2 then NoChange.(text := Some(""), nodeType := Some(H2))
    else if val == "### " && item.nodeType != H3 then NoChange.(text := Some(""), nodeType := Some(H3))
    else NoChange.(text := Some(val))
  }

  /** Typing "# " into a task (or h2, h3) makes it an empty h1; into an h1 it is kept as text. */
  lemma HashSpaceRetypes(item: Item)
    ensures var r := Merge(item, HandleChange(item, "# "));
      if item.nodeType == H1 then r == item.(text := "# ")
      else r == item.(text := "", nodeType := H1)
  {
  }

  /**
   * Applying a change never touches the id, indent, check mark or collapse
   * flag, and the new text is either the typed value or empty.
   */
  lemma ChangeKeepsStructure(item: Item, val: string)
    ensures var r := Merge(item, HandleChange(item, val));
      && r.id == item.id && r.indent == item.indent
      && r.checked == item.checked && r.collapsed == item.collapsed
      && (r.text == val || (r.text == "" && r.nodeType != item.nodeType && IsHeading(r.nodeType)))
  {
  }

  predicate IsHeading(t: NodeType) {
    t == H1 || t == H2 || t == H3
  }

  /** The hint shown in an empty row. */
  function Placeholder(t: NodeType): (r: string)
    ensures |r| > 3 && r[|r| - 3..] == "..."
  {
    match t
    case H1 => "大見出し..."
    case H2 => "中見出し..."
    case H3 => "小見出し..."
    case Task => "タスクを入力..."
  }

  /** Each type has its own hint, so the empty row tells what it is. */
  lemma PlaceholderDistinct(t1: NodeType, t2: NodeType)
    ensures Placeholder(t1) == Placeholder(t2) <==> t1 == t2
  {
  }

  /** What a rendered row shows, apart from styling. */
  datatype RowView = RowView(
    checkbox: bool,        // a clickable check box
    collapseToggle: bool,  // the expand/collapse chevron
    expandedChevron: bool, // the chevron points down (the row is expanded)
    struckThrough: bool,   // the text is dimmed and struck through
    placeholder: string,
    indentPx: int)

  /**
   * The row as rendered: nothing when invisible; a check box only for
   * tasks; a collapse toggle only when the row has children; done tasks
   * struck through; 24 pixels of padding per indent level.
   */
  function Render(item: Item, isVisible: bool, hasChildren: bool): (r: Option<RowView>)
    ensures r.None? <==> !isVisible
    ensures r.Some? ==>
      && (r.value.checkbox <==> item.nodeType == Task)
      && (r.value.collapseToggle <==> hasChildren)
      && (r.value.struckThrough <==> item.checked && item.nodeType == Task)
      && r.value.indentPx == 24 * item.indent
  {
    if !isVisible then None
    else
      var heading := IsHeading(item.nodeType);
      Some(RowView(!heading, hasChildren, !item.collapsed, item.checked && !heading,
                   Placeholder(item.nodeType), item.indent * 24))
  }

  /** Clicking the check box flips the check mark. */
  function CheckboxClick(item: Item): (u: ItemUpdate)
    ensures Merge(item, u) == item.(checked := !item.checked)
  {
    NoChange.(checked := Some(!item.checked))
  }

  lemma CheckboxTwice(item: Item)
    ensures Merge(Merge(item, CheckboxClick(item)), CheckboxClick(Merge(item, CheckboxClick(item)))) == item
  {
  }
}
