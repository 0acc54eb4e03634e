/**
 * The floating toolbar for the focused row (src/components/FloatingToolbar.tsx):
 * outdent, indent, the H1/H2/Task type buttons and delete.
 */
module Toolbar {
  import opened Types

  datatype Button = OutdentButton | IndentButton | H1Button | H2Button | TaskButton | DeleteButton

  /** What a press asks the editor to do with the focused row. */
  datatype Action = Outdent | Indent | SetType(t: NodeType) | Delete

  /**
   * The type a type button sets: H1 and H2 toggle between their heading and
   * task, Task always sets task. There is no H3 button.
   */
  function TypeFor(b: Button, current: NodeType): (t: NodeType)
    requires b == H1Button || b == H2Button || b == TaskButton
    ensures b == TaskButton ==> t == Task
    ensures b == H1Button ==> (t == Task <==> current == H1) && (t != Task ==> t == H1)
    ensures b == H2Button ==> (t == Task <==> current == H2) && (t != Task ==> t == H2)
  {
    match b
    case H1Button => if current == H1 then Task else H1
    case H2Button => if current == H2 then Task else H2
    case TaskButton => Task
  }

  /** A press on the toolbar; an invisible toolbar renders nothing and so produces nothing. */
  function Press(isVisible: bool, current: NodeType, b: Button): (r: Option<Action>)
    ensures !isVisible <==> r.None?
    ensures isVisible && b == OutdentButton ==> r == Some(Outdent)
    ensures isVisible && b == IndentButton ==> r == Some(Indent)
    ensures isVisible && b == DeleteButton ==> r == Some(Delete)
    ensures isVisible && (b == H1Button || b == H2Button || b == TaskButton) ==>
      r == Some(SetType(TypeFor(b, current)))
  {
    if !isVisible then None
    else match b
      case OutdentButton => Some(Outdent)
      case IndentButton => Some(Indent)
      case DeleteButton => Some(Delete)
      case _ => Some(SetType(TypeFor(b, current)))
  }

  /** A type button is shown highlighted when the row already has its type. */
  predicate Highlighted(b: Button, current: NodeType): (r: bool)
    ensures r ==> b == H1Button || b == H2Button || b == TaskButton
  {
    (b == H1Button && current == H1) || (b == H2Button && current == H2) || (b == TaskButton && current == Task)
  }

  /** At most one type button is shown active, and none exactly on an h3 row. */
  lemma OneHighlighted(current: NodeType)
    ensures forall b1, b2 :: Highlighted(b1, current) && Highlighted(b2, current) ==> b1 == b2
    ensures current == H3 <==> forall b :: !Highlighted(b, current)
  {
    if current != H3 {
      var b := match current case H1 => H1Button case H2 => H2Button case _ => TaskButton;
      assert Highlighted(b, current);
    }
  }

  /**
   * Pressing the same heading button twice brings back the starting type
   * when that is the button's own level, and otherwise leaves a task.
   */
  lemma {:induction false} HeadingButtonTwice(b: Button, current: NodeType)
    requires b == H1Button || b == H2Button
    ensures TypeFor(b, TypeFor(b, current)) == (if Highlighted(b, current) then current else Task)
  {
    if b == H1Button {
      if current == H1 {
        assert TypeFor(b, current) == Task;
      } else {
        assert TypeFor(b, current) == H1;
      }
    } else {
      if current == H2 {
        assert TypeFor(b, current) == Task;
      } else {
        assert TypeFor(b, current) == H2;
      }
    }
  }

  /** Task is idempotent, and from h3 (which has no button) H1 and H2 set their own level. */
  lemma TaskIdempotentAndNoH3(current: NodeType)
    ensures TypeFor(TaskButton, TypeFor(TaskButton, current)) == TypeFor(TaskButton, current) == Task
    ensures current == H3 ==> TypeFor(H1Button, current) == H1 && TypeFor(H2Button, current) == H2
  {
  }

  /** A type button toggles back to task exactly when it is highlighted (for H1 and H2). */
  lemma ToggleIffHighlighted(b: Button, current: NodeType)
    requires b == H1Button || b == H2Button
    ensures TypeFor(b, current) == Task <==> Highlighted(b, current)
  {
  }
}
