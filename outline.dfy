/**
 * The outline model of the checklist editor (src/pages/ChecklistPage.tsx):
 * a flat sequence of items whose hierarchy is implied by their indents,
 * the visibility pass that derives which items are hidden under a collapsed
 * ancestor and which items have children, and the structural edits.
 */
module Outline {
  import opened Types
  import DataService

  /* ---------------------------------------------------------------------
   * Derived state: children and visibility
   * ------------------------------------------------------------------- */

  /** Item `i` has children exactly when the next item exists and is indented deeper. */
  predicate HasChildAt(items: seq<Item>, i: int)
    requires 0 <= i < |items|
  {
    i + 1 < |items| && items[i + 1].indent > items[i].indent
  }

  /** Pops the collapsed regions that an item of indent `d` closes (their indent is at least `d`). */
  function PopClosed(stack: seq<int>, d: int): (r: seq<int>)
    ensures |r| <= |stack|
  {
    if stack != [] && d <= stack[|stack| - 1] then PopClosed(stack[..|stack| - 1], d) else stack
  }

  /** The stack of collapsed indents as the pass finds it when it reaches item `i`. */
  function StackBefore(items: seq<Item>, i: int): seq<int>
    requires 0 <= i <= |items|
    decreases i
  {
    if i == 0 then []
    else
      var p := i - 1;
      var s := PopClosed(StackBefore(items, p), items[p].indent);
      if s == [] && HasChildAt(items, p) && items[p].collapsed then s + [items[p].indent] else s
  }

  /** Item `i` is visible when no collapsed region is still open once it has closed the finished ones. */
  predicate VisibleAt(items: seq<Item>, i: int)
    requires 0 <= i < |items|
  {
    PopClosed(StackBefore(items, i), items[i].indent) == []
  }

  /**
   * The visibility pass: one left-to-right scan that fills a visibility
   * array and a has-children array and keeps a stack of collapsed indents.
   */
  method ComputeVisibility(items: seq<Item>) returns (visible: seq<bool>, hasChildren: seq<bool>)
    ensures |visible| == |items| && |hasChildren| == |items|
    ensures forall i :: 0 <= i < |items| ==> visible[i] == VisibleAt(items, i)
    ensures forall i :: 0 <= i < |items| ==> hasChildren[i] == HasChildAt(items, i)
    ensures |items| > 0 ==> visible[0] && !hasChildren[|items| - 1]
  {
    var n := |items|;
    var vis := new bool[n](_ => true);
    var kids := new bool[n](_ => false);
    var collapseStack: seq<int> := [];
    for i := 0 to n
      invariant collapseStack == StackBefore(items, i)
      invariant |collapseStack| <= 1
      invariant forall k :: 0 <= k < i ==> vis[k] == VisibleAt(items, k) && kids[k] == HasChildAt(items, k)
      invariant forall k :: i <= k < n ==> vis[k] && !kids[k]
    {
      var item := items[i];
      while |collapseStack| > 0 && item.indent <= collapseStack[|collapseStack| - 1]
        invariant PopClosed(collapseStack, item.indent) == PopClosed(StackBefore(items, i), item.indent)
        decreases |collapseStack|
      {
        collapseStack := collapseStack[..|collapseStack| - 1];
      }
      assert collapseStack == PopClosed(StackBefore(items, i), item.indent);
      if |collapseStack| > 0 {
        vis[i] := false;
      }
      assert vis[i] == VisibleAt(items, i);
      if i + 1 < n && items[i + 1].indent > item.indent {
        kids[i] := true;
        if vis[i] && item.collapsed {
          collapseStack := collapseStack + [item.indent];
        }
      }
      assert collapseStack == StackBefore(items, i + 1);
      StackAtMostOne(items, i + 1);
    }
    visible, hasChildren := vis[..], kids[..];
  }

  /**
   * Item `j` keeps a collapsed region open up to (not including) item `i`:
   * it is visible, collapsed and has children, and every item after it and
   * before `i` is indented deeper than it.
   */
  ghost predicate Covers(items: seq<Item>, j: int, i: int) {
    && 0 <= j < i <= |items|
    && VisibleAt(items, j)
    && HasChildAt(items, j)
    && items[j].collapsed
    && forall k :: j < k < i ==> items[k].indent > items[j].indent
  }

  /** Extending a region's reach by one item: the new item must be indented deeper. */
  lemma CoversStep(items: seq<Item>, j: int, p: int)
    requires 0 <= j < p < |items|
    ensures Covers(items, j, p + 1) <==> Covers(items, j, p) && items[p].indent > items[j].indent
  {
  }

  /**
   * The shape of the stack when the pass reaches item `i`: at most one
   * entry, present exactly when some item's collapsed region is still open,
   * and then that item's indent.
   */
  ghost predicate StackShaped(items: seq<Item>, i: int)
    requires 0 <= i <= |items|
  {
    && |StackBefore(items, i)| <= 1
    && (StackBefore(items, i) == [] <==> forall j :: 0 <= j < i ==> !Covers(items, j, i))
    && (forall j :: 0 <= j < i && Covers(items, j, i) ==> StackBefore(items, i) == [items[j].indent])
  }

  /** A single open region is closed by an item exactly when that item is not indented deeper. */
  lemma PopSingle(e: int, d: int)
    ensures PopClosed([e], d) == if d <= e then [] else [e]
  {
    assert [e][..0] == [];
  }

  /** Step of the pass at item `p` when it closes every open region (so `p` is visible). */
  lemma ShapeStepVisible(items: seq<Item>, p: int)
    requires 0 <= p < |items| && StackShaped(items, p)
    requires PopClosed(StackBefore(items, p), items[p].indent) == []
    ensures StackShaped(items, p + 1)
  {
    var i, d := p + 1, items[p].indent;
    var after := StackBefore(items, i);
    assert VisibleAt(items, p);
    assert after == if HasChildAt(items, p) && items[p].collapsed then [d] else [];
    assert Covers(items, p, i) <==> HasChildAt(items, p) && items[p].collapsed;
    forall j | 0 <= j < p ensures !Covers(items, j, i) {
      CoversStep(items, j, p);
      if Covers(items, j, p) {
        PopSingle(items[j].indent, d);
      }
    }
    if Covers(items, p, i) {
      assert after == [d];
      assert !(forall j :: 0 <= j < i ==> !Covers(items, j, i));
    } else {
      assert after == [];
      assert forall j :: 0 <= j < i ==> !Covers(items, j, i);
    }
    forall j | 0 <= j < i && Covers(items, j, i) ensures after == [items[j].indent] {
      assert j == p;
    }
  }

  /** Step of the pass at item `p` when a region stays open over it (so `p` is hidden). */
  lemma ShapeStepHidden(items: seq<Item>, p: int)
    requires 0 <= p < |items| && StackShaped(items, p)
    requires PopClosed(StackBefore(items, p), items[p].indent) != []
    ensures StackShaped(items, p + 1)
  {
    var i, d, before := p + 1, items[p].indent, StackBefore(items, p);
    assert before != [];
    var j0 :| 0 <= j0 < p && Covers(items, j0, p);
    var e := items[j0].indent;
    assert before == [e];
    PopSingle(e, d);
    assert StackBefore(items, i) == [e];
    CoversStep(items, j0, p);
    assert Covers(items, j0, i);
    forall j | 0 <= j < i && Covers(items, j, i) ensures [e] == [items[j].indent] {
      assert j != p;
      CoversStep(items, j, p);
    }
  }

  /**
   * The stack never holds more than one entry, and it holds the indent of
   * the one item whose collapsed region is still open, if there is one.
   */
  lemma {:induction false} StackShape(items: seq<Item>, i: int)
    requires 0 <= i <= |items|
    ensures StackShaped(items, i)
    decreases i
  {
    if i == 0 {
      assert StackBefore(items, 0) == [];
    } else {
      var p := i - 1;
      StackShape(items, p);
      if PopClosed(StackBefore(items, p), items[p].indent) == [] {
        ShapeStepVisible(items, p);
      } else {
        ShapeStepHidden(items, p);
      }
    }
  }

  /** The stack of collapsed indents never holds more than one entry. */
  lemma StackAtMostOne(items: seq<Item>, i: int)
    requires 0 <= i <= |items|
    ensures |StackBefore(items, i)| <= 1
  {
    StackShape(items, i);
  }

  /**
   * Item `j` hides item `i`: it is visible, collapsed and has children, and
   * every item from `j + 1` through `i` is indented strictly deeper than it.
   */
  ghost predicate HiddenBy(items: seq<Item>, j: int, i: int) {
    0 <= j < i < |items| && Covers(items, j, i + 1)
  }

  /**
   * Exact characterisation of a hidden item: item `i` is hidden exactly when
   * some earlier visible, collapsed item with children has every item after
   * it, through `i`, indented strictly deeper than itself.
   */
  lemma HiddenIff(items: seq<Item>, i: int)
    requires 0 <= i < |items|
    ensures !VisibleAt(items, i) <==> exists j :: HiddenBy(items, j, i)
  {
    StackShape(items, i);
    var before := StackBefore(items, i);
    var d := items[i].indent;
    if before == [] {
      forall j | HiddenBy(items, j, i) ensures false {
        CoversStep(items, j, i);
      }
    } else {
      var j0 :| 0 <= j0 < i && Covers(items, j0, i);
      var e := items[j0].indent;
      if d <= e {
        assert PopClosed(before, d) == PopClosed([], d);
        forall j | HiddenBy(items, j, i) ensures false {
          CoversStep(items, j, i);
        }
      } else {
        CoversStep(items, j0, i);
        assert HiddenBy(items, j0, i);
      }
    }
  }

  /** With no collapsed item, every item is visible. */
  lemma NothingCollapsedAllVisible(items: seq<Item>)
    requires forall k :: 0 <= k < |items| ==> !items[k].collapsed
    ensures forall i :: 0 <= i < |items| ==> VisibleAt(items, i)
  {
    forall i | 0 <= i < |items| ensures VisibleAt(items, i) {
      HiddenIff(items, i);
    }
  }

  /**
   * Collapsing a visible item with children hides every item of the run
   * that follows it with deeper indent.
   */
  lemma CollapsedHidesRun(items: seq<Item>, j: int, k: int)
    requires 0 <= j < k < |items|
    requires VisibleAt(items, j) && HasChildAt(items, j) && items[j].collapsed
    requires forall m :: j < m <= k ==> items[m].indent > items[j].indent
    ensures !VisibleAt(items, k)
  {
    HiddenIff(items, k);
    assert HiddenBy(items, j, k);
  }

  /* ---------------------------------------------------------------------
   * Structural edits
   * ------------------------------------------------------------------- */

  /** The new item sequence and, when the edit moves it, the new focused index. */
  datatype Edit = Edit(items: seq<Item>, focus: Option<nat>)

  /** The kinds of row the editor inserts: a task, or a top-level section heading. */
  datatype InsertKind = TaskRow | SectionRow

  const SectionPlaceholder: string := "新しいセクション"

  /** Replaces slot `index` by the item merged with the fields present in `u`. */
  function UpdateAt(items: seq<Item>, index: int, u: ItemUpdate): (r: seq<Item>)
    requires 0 <= index < |items|
    ensures |r| == |items|
    ensures r[index] == Merge(items[index], u)
    ensures forall k :: 0 <= k < |items| && k != index ==> r[k] == items[k]
  {
    items[index := Merge(items[index], u)]
  }

  /**
   * Inserts a fresh item right after `afterIndex` and moves the focus onto
   * it. A task inherits the indent of the item it follows (0 when there is
   * none); a section is a top-level heading with placeholder text.
   */
  function InsertAfter(items: seq<Item>, afterIndex: int, kind: InsertKind, freshId: string): (r: Edit)
    requires -1 <= afterIndex < |items|
    ensures |r.items| == |items| + 1
    ensures r.items[..afterIndex + 1] == items[..afterIndex + 1]
    ensures r.items[afterIndex + 2..] == items[afterIndex + 1..]
    ensures r.focus == Some(afterIndex + 1)
    ensures var x := r.items[afterIndex + 1];
      && x.id == freshId && !x.checked && !x.collapsed
      && (kind == TaskRow ==>
            x.nodeType == Task && x.text == ""
            && x.indent == (if afterIndex >= 0 then items[afterIndex].indent else 0))
      && (kind == SectionRow ==> x.nodeType == H1 && x.text == SectionPlaceholder && x.indent == 0)
  {
    var blank := DataService.GenerateInitialItem(freshId);
    var x := match kind
      case SectionRow => blank.(indent := 0, nodeType := H1, text := SectionPlaceholder)
      case TaskRow => blank.(indent := if afterIndex >= 0 then items[afterIndex].indent else 0);
    Edit(items[..afterIndex + 1] + [x] + items[afterIndex + 1..], Some(afterIndex + 1))
  }

  /**
   * Removes slot `index` and moves the focus to the item before it; refuses
   * (changing nothing, focus included) when at most one item is left.
   */
  function DeleteAt(items: seq<Item>, index: int): (r: Edit)
    requires 0 <= index < |items|
    ensures |items| <= 1 ==> r == Edit(items, None)
    ensures |items| > 1 ==>
      && |r.items| == |items| - 1
      && r.items[..index] == items[..index]
      && r.items[index..] == items[index + 1..]
      && r.focus == Some(if index > 0 then index - 1 else 0)
    ensures |r.items| >= 1
    ensures r.focus.Some? ==> r.focus.value < |r.items|
  {
    if |items| <= 1 then Edit(items, None)
    else Edit(items[..index] + items[index + 1..], Some(if index - 1 > 0 then index - 1 else 0))
  }

  /** Every item unchecked; nothing else about any item, nor their number or order, changes. */
  function UncheckAll(items: seq<Item>): (r: seq<Item>)
    ensures |r| == |items|
    ensures forall k :: 0 <= k < |r| ==> !r[k].checked
    ensures forall k :: 0 <= k < |r| ==> r[k].(checked := items[k].checked) == items[k]
  {
    seq(|items|, k requires 0 <= k < |items| => Merge(items[k], NoChange.(checked := Some(false))))
  }

  /** Flips `collapsed` of slot `index` (an absent flag reads as false) and nothing else. */
  function ToggleCollapse(items: seq<Item>, index: int): (r: seq<Item>)
    requires 0 <= index < |items|
    ensures |r| == |items|
    ensures r[index].collapsed == !items[index].collapsed
    ensures r[index].(collapsed := items[index].collapsed) == items[index]
    ensures forall k :: 0 <= k < |items| && k != index ==> r[k] == items[k]
  {
    UpdateAt(items, index, NoChange.(collapsed := Some(!items[index].collapsed)))
  }

  /** Indent one level deeper, clamped at the maximum. */
  function Indented(indent: int): (r: int)
    ensures r <= MaxIndent
    ensures indent < MaxIndent ==> r == indent + 1
    ensures indent >= MaxIndent ==> r == MaxIndent
  {
    if indent + 1 < MaxIndent then indent + 1 else MaxIndent
  }

  /** Indent one level shallower, clamped at 0. */
  function Outdented(indent: int): (r: int)
    ensures r >= 0
    ensures indent > 0 ==> r == indent - 1
    ensures indent <= 0 ==> r == 0
  {
    if indent - 1 > 0 then indent - 1 else 0
  }

  /**
   * Indenting and outdenting keep an indent in [0, 6], change nothing at the
   * bounds, and undo each other strictly inside them.
   */
  lemma IndentClamping(n: int)
    ensures 0 <= n <= MaxIndent ==> 0 <= Indented(n) <= MaxIndent && 0 <= Outdented(n) <= MaxIndent
    ensures n < MaxIndent ==> Indented(n) == n + 1
    ensures n >= MaxIndent ==> Indented(n) == MaxIndent
    ensures n > 0 ==> Outdented(n) == n - 1
    ensures n <= 0 ==> Outdented(n) == 0
    ensures 0 <= n < MaxIndent ==> Outdented(Indented(n)) == n
    ensures 0 < n <= MaxIndent ==> Indented(Outdented(n)) == n
  {
  }

  /** Inserting after `a` and then deleting the inserted slot restores the sequence. */
  lemma InsertThenDelete(items: seq<Item>, a: int, kind: InsertKind, freshId: string)
    requires -1 <= a < |items| && |items| >= 1
    ensures DeleteAt(InsertAfter(items, a, kind, freshId).items, a + 1).items == items
  {
    var ins := InsertAfter(items, a, kind, freshId).items;
    var del := DeleteAt(ins, a + 1).items;
    assert del == ins[..a + 1] + ins[a + 2..];
    assert items == items[..a + 1] + items[a + 1..];
  }

  lemma UncheckAllIdempotent(items: seq<Item>)
    ensures UncheckAll(UncheckAll(items)) == UncheckAll(items)
  {
  }

  lemma ToggleCollapseTwice(items: seq<Item>, index: int)
    requires 0 <= index < |items|
    ensures ToggleCollapse(ToggleCollapse(items, index), index) == items
  {
  }
}
