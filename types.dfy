/**
 * The records shared by the editor, the list overview and the data service:
 * outline nodes (checklist items), partial updates of them, and checklist
 * records as the store keeps them and as the application sees them.
 */
module Types {

  datatype Option<T> = None | Some(value: T) {
    function GetOr(default: T): T {
      match this
      case Some(v) => v
      case None => default
    }
  }

  datatype Result<T> = Ok(value: T) | Err(message: string)

  /** The fixed name of the default category, which always exists and cannot be deleted. */
  const Main: string := "メイン"

  /** The largest indent the keyboard and the toolbar can reach. */
  const MaxIndent: int := 6

  datatype NodeType = H1 | H2 | H3 | Task

  /**
   * One line of an outline. `collapsed` is optional in the stored form;
   * an absent value reads as false, which is how every reader treats it.
   */
  datatype Item = Item(
    id: string,
    text: string,
    checked: bool,
    nodeType: NodeType,
    indent: int,
    collapsed: bool)

  /** A partial item: each present field overrides the item's own. */
  datatype ItemUpdate = ItemUpdate(
    id: Option<string>,
    text: Option<string>,
    checked: Option<bool>,
    nodeType: Option<NodeType>,
    indent: Option<int>,
    collapsed: Option<bool>)

  const NoChange: ItemUpdate := ItemUpdate(None, None, None, None, None, None)

  /** Object spread `{ ...item, ...u }`: fields present in `u` win. */
  function Merge(item: Item, u: ItemUpdate): (r: Item)
    ensures u == NoChange ==> r == item
    ensures u.id.None? ==> r.id == item.id
    ensures u.text.None? ==> r.text == item.text
    ensures u.checked.None? ==> r.checked == item.checked
    ensures u.nodeType.None? ==> r.nodeType == item.nodeType
    ensures u.indent.None? ==> r.indent == item.indent
    ensures u.collapsed.None? ==> r.collapsed == item.collapsed
    ensures u.id.Some? ==> r.id == u.id.value
    ensures u.text.Some? ==> r.text == u.text.value
    ensures u.checked.Some? ==> r.checked == u.checked.value
    ensures u.nodeType.Some? ==> r.nodeType == u.nodeType.value
    ensures u.indent.Some? ==> r.indent == u.indent.value
    ensures u.collapsed.Some? ==> r.collapsed == u.collapsed.value
  {
    Item(
      u.id.GetOr(item.id),
      u.text.GetOr(item.text),
      u.checked.GetOr(item.checked),
      u.nodeType.GetOr(item.nodeType),
      u.indent.GetOr(item.indent),
      u.collapsed.GetOr(item.collapsed))
  }

  /**
   * The stored content of a checklist. The text encoding itself is not
   * modelled: content either decodes to a sequence of items or does not
   * parse at all.
   */
  datatype Content = Encoded(items: seq<Item>) | Malformed

  /** A checklist record as the application sees it: category and order always set. */
  datatype Checklist = Checklist(
    id: string,
    title: string,
    content: Content,
    category: string,
    order: int,
    createdAt: string,
    updatedAt: string)

  /** A checklist record with its content decoded into items. */
  datatype ParsedChecklist = ParsedChecklist(
    id: string,
    title: string,
    items: seq<Item>,
    category: string,
    order: int,
    createdAt: string,
    updatedAt: string)
}
