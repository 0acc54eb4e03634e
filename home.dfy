/**
 * The list overview (src/pages/Home.tsx): category tabs derived from the
 * lists, adding and deleting tabs, moving a list to another tab, drag
 * reordering within the active tab and renumbering the order on drop.
 */
module Home {
  import opened Types
  import opened SeqUtil
  import opened Strings
  import DataService

  /* ---------------------------------------------------------------------
   * Tab derivation
   * ------------------------------------------------------------------- */

  /** `c` is the non-empty category of one of the first `n` lists. */
  ghost predicate ListedIn(lists: seq<Checklist>, n: int, c: string) {
    c != "" && exists j :: 0 <= j < n && j < |lists| && lists[j].category == c
  }

  /** The names a tab bar must show: the default category, every list's non-empty category and the extra name. */
  ghost predicate Derived(lists: seq<Checklist>, additional: Option<string>, c: string) {
    c == Main || ListedIn(lists, |lists|, c) || (additional.Some? && additional.value != "" && c == additional.value)
  }

  /** A tab bar for these lists: the default first, no name twice, exactly the derived names, the rest ascending. */
  ghost predicate TabsFor(lists: seq<Checklist>, additional: Option<string>, cats: seq<string>) {
    && |cats| >= 1 && cats[0] == Main
    && NoDup(cats)
    && (forall c :: c in cats <==> Derived(lists, additional, c))
    && StrictlySorted(cats[1..])
  }

  /** Removing a name from a strictly ascending sequence keeps it strictly ascending. */
  lemma {:induction false} WithoutKeepsStrict(s: seq<string>, x: string)
    requires StrictlySorted(s)
    ensures StrictlySorted(Without(s, x))
  {
    if s != [] {
      assert StrictlySorted(s[1..]) by {
        forall i, j | 0 <= i < j < |s[1..]| ensures LexLess(s[1..][i], s[1..][j]) {
          assert s[1..][i] == s[i + 1] && s[1..][j] == s[j + 1];
        }
      }
      WithoutKeepsStrict(s[1..], x);
      var rest := Without(s[1..], x);
      if s[0] != x {
        forall j | 0 <= j < |rest| ensures LexLess(s[0], rest[j]) {
          assert rest[j] in s[1..];
          var k :| 0 <= k < |s[1..]| && s[1..][k] == rest[j];
          assert s[k + 1] == rest[j];
        }
        assert Without(s, x) == [s[0]] + rest;
        forall i, j | 0 <= i < j < |[s[0]] + rest| ensures LexLess(([s[0]] + rest)[i], ([s[0]] + rest)[j]) {
          if i > 0 {
            assert ([s[0]] + rest)[i] == rest[i - 1] && ([s[0]] + rest)[j] == rest[j - 1];
          }
        }
      }
    }
  }

  /**
   * `recalcCategories` (and the same steps in `loadData`): collect the
   * default and every non-empty category, and the extra name when given,
   * into a set; sort it; put the default first.
   */
  method DeriveCategories(lists: seq<Checklist>, additional: Option<string>) returns (cats: seq<string>)
    ensures TabsFor(lists, additional, cats)
  {
    var unique: seq<string> := [Main];
    for i := 0 to |lists|
      invariant NoDup(unique)
      invariant forall c :: c in unique <==> c == Main || ListedIn(lists, i, c)
    {
      if lists[i].category != "" {
        unique := AppendIfAbsent(unique, lists[i].category);
      }
      forall c ensures ListedIn(lists, i + 1, c) <==> ListedIn(lists, i, c) || (c != "" && c == lists[i].category) {
        if ListedIn(lists, i + 1, c) && !ListedIn(lists, i, c) {
          var j :| 0 <= j < i + 1 && j < |lists| && lists[j].category == c;
          assert j == i;
        }
      }
    }
    if additional.Some? && additional.value != "" {
      unique := AppendIfAbsent(unique, additional.value);
    }
    cats := Arrange(unique);
  }

  /** The tab row: the default category first, then the other names in ascending order. */
  function Arrange(names: seq<string>): (r: seq<string>)
    requires NoDup(names)
    ensures |r| >= 1 && r[0] == Main
    ensures NoDup(r)
    ensures forall c :: c in r <==> c == Main || c in names
    ensures StrictlySorted(r[1..])
  {
    var sorted := Sort(names);
    NoDupPermutation(names, sorted);
    assert forall c :: c in sorted <==> c in names by {
      forall c ensures c in sorted <==> c in names {
        assert c in sorted <==> c in multiset(sorted);
        assert c in names <==> c in multiset(names);
      }
    }
    SortedDistinctIsStrict(sorted);
    var rest := Without(sorted, Main);
    WithoutKeepsStrict(sorted, Main);
    var r := [Main] + rest;
    assert r[1..] == rest;
    forall i, j | 0 <= i < j < |r| ensures r[i] != r[j] {
      assert r[j] == rest[j - 1];
      if i > 0 {
        assert r[i] == rest[i - 1];
      }
    }
    r
  }

  lemma {:induction false} StrictSameElements(a: seq<string>, b: seq<string>)
    requires StrictlySorted(a) && StrictlySorted(b)
    requires forall c :: c in a <==> c in b
    ensures a == b
    decreases |a|
  {
    if a != [] {
      assert a[0] in b;
    }
    if b != [] {
      assert b[0] in a;
    }
    if a != [] && b != [] {
      assert a[0] in b && b[0] in a;
      var k :| 0 <= k < |b| && b[k] == a[0];
      var m :| 0 <= m < |a| && a[m] == b[0];
      if k > 0 && m > 0 {
        LexAsymmetric(b[0], a[0]);
      }
      assert a[0] == b[0];
      forall c ensures c in a[1..] <==> c in b[1..] {
        assert a == [a[0]] + a[1..] && b == [b[0]] + b[1..];
        if c in a[1..] {
          var i :| 0 <= i < |a[1..]| && a[1..][i] == c;
          assert LexLess(a[0], a[i + 1]);
          LexIrreflexive(a[0]);
          assert c != b[0] && c in b;
        }
        if c in b[1..] {
          var i :| 0 <= i < |b[1..]| && b[1..][i] == c;
          assert LexLess(b[0], b[i + 1]);
          LexIrreflexive(b[0]);
          assert c != a[0] && c in a;
        }
      }
      assert StrictlySorted(a[1..]) by {
        forall i, j | 0 <= i < j < |a[1..]| ensures LexLess(a[1..][i], a[1..][j]) {
          assert a[1..][i] == a[i + 1] && a[1..][j] == a[j + 1];
        }
      }
      assert StrictlySorted(b[1..]) by {
        forall i, j | 0 <= i < j < |b[1..]| ensures LexLess(b[1..][i], b[1..][j]) {
          assert b[1..][i] == b[i + 1] && b[1..][j] == b[j + 1];
        }
      }
      StrictSameElements(a[1..], b[1..]);
      assert a == [a[0]] + a[1..] && b == [b[0]] + b[1..];
    }
  }

  /**
   * The tab bar is determined by the lists alone: whatever order the lists
   * come in, there is exactly one sequence of tabs that fits.
   */
  lemma TabsUnique(lists: seq<Checklist>, additional: Option<string>, c1: seq<string>, c2: seq<string>)
    requires TabsFor(lists, additional, c1) && TabsFor(lists, additional, c2)
    ensures c1 == c2
  {
    assert forall c :: c in c1[1..] <==> c in c2[1..] by {
      forall c ensures c in c1[1..] <==> c in c2[1..] {
        assert c1 == [c1[0]] + c1[1..] && c2 == [c2[0]] + c2[1..];
        if c in c1[1..] {
          var i :| 0 <= i < |c1[1..]| && c1[1..][i] == c;
          assert c1[i + 1] != c1[0];
          assert c != c2[0] && c in c2;
        }
        if c in c2[1..] {
          var i :| 0 <= i < |c2[1..]| && c2[1..][i] == c;
          assert c2[i + 1] != c2[0];
          assert c != c1[0] && c in c1;
        }
      }
    }
    StrictSameElements(c1[1..], c2[1..]);
    assert c1 == [c1[0]] + c1[1..] && c2 == [c2[0]] + c2[1..];
  }

  /* ---------------------------------------------------------------------
   * Lists per tab, moving lists, reordering
   * ------------------------------------------------------------------- */

  /** The lists of one tab, in their order (those whose category is the tab). */
  function InTab(lists: seq<Checklist>, tab: string): (r: seq<Checklist>)
    ensures |r| <= |lists|
  {
    if lists == [] then []
    else (if lists[0].category == tab then [lists[0]] else []) + InTab(lists[1..], tab)
  }

  /** The tab filter works piecewise: the lists of a concatenation are those of each part, in order. */
  lemma {:induction false} InTabAppend(a: seq<Checklist>, b: seq<Checklist>, tab: string)
    ensures InTab(a + b, tab) == InTab(a, tab) + InTab(b, tab)
  {
    if a == [] {
      assert a + b == b;
    } else {
      var h := if a[0].category == tab then [a[0]] else [];
      assert (a + b)[0] == a[0] && (a + b)[1..] == a[1..] + b;
      assert InTab(a + b, tab) == h + InTab(a[1..] + b, tab);
      assert InTab(a, tab) == h + InTab(a[1..], tab);
      InTabAppend(a[1..], b, tab);
      assert h + (InTab(a[1..], tab) + InTab(b, tab)) == (h + InTab(a[1..], tab)) + InTab(b, tab);
    }
  }

  /** On one list, the filter keeps it exactly when it carries the tab's category. */
  lemma InTabSingleton(c: Checklist, tab: string)
    ensures InTab([c], tab) == (if c.category == tab then [c] else [])
  {
    assert [c][1..] == [];
  }

  /** The lists of a tab are exactly the lists carrying that category. */
  lemma {:induction false} InTabMembers(lists: seq<Checklist>, tab: string, x: Checklist)
    ensures x in InTab(lists, tab) <==> x in lists && x.category == tab
  {
    if lists != [] {
      InTabMembers(lists[1..], tab, x);
      assert lists == [lists[0]] + lists[1..];
    }
  }

  /** The first position holding a list with that id, or -1 when there is none. */
  function FindIndex(lists: seq<Checklist>, id: string): (r: int)
    ensures -1 <= r < |lists|
    ensures r == -1 <==> forall i :: 0 <= i < |lists| ==> lists[i].id != id
    ensures r >= 0 ==> lists[r].id == id && forall i :: 0 <= i < r ==> lists[i].id != id
  {
    if lists == [] then -1
    else if lists[0].id == id then 0
    else
      var k := FindIndex(lists[1..], id);
      if k == -1 then -1 else k + 1
  }

  /** Some list of tab `tab` has id `id`. */
  ghost predicate InActiveTab(lists: seq<Checklist>, tab: string, id: string) {
    exists i :: 0 <= i < |lists| && lists[i].category == tab && lists[i].id == id
  }

  lemma FindInTab(lists: seq<Checklist>, tab: string, id: string)
    ensures FindIndex(InTab(lists, tab), id) != -1 <==> InActiveTab(lists, tab, id)
  {
    var t := InTab(lists, tab);
    if FindIndex(t, id) != -1 {
      var x := t[FindIndex(t, id)];
      InTabMembers(lists, tab, x);
      var i :| 0 <= i < |lists| && lists[i] == x;
    }
    if InActiveTab(lists, tab, id) {
      var i :| 0 <= i < |lists| && lists[i].category == tab && lists[i].id == id;
      InTabMembers(lists, tab, lists[i]);
      var k :| 0 <= k < |t| && t[k] == lists[i];
    }
  }

  /**
   * The element at `g` is taken out and put back so that it ends up at
   * position `h`; the others keep their order.
   */
  function Relocate<T>(s: seq<T>, g: int, h: int): (r: seq<T>)
    requires 0 <= g < |s| && 0 <= h < |s|
    ensures |r| == |s| && multiset(r) == multiset(s)
    ensures r[h] == s[g]
    ensures r[..h] + r[h + 1..] == s[..g] + s[g + 1..]
    ensures forall k :: 0 <= k < |s| && ((k < g && k < h) || (k > g && k > h)) ==> r[k] == s[k]
  {
    var removed := s[..g] + s[g + 1..];
    var r := removed[..h] + [s[g]] + removed[h..];
    RelocatePermutes(s, g, h, removed, r);
    RelocateIndices(s, g, h, removed, r);
    r
  }

  lemma RelocatePermutes<T>(s: seq<T>, g: int, h: int, removed: seq<T>, r: seq<T>)
    requires 0 <= g < |s| && 0 <= h < |s|
    requires removed == s[..g] + s[g + 1..] && r == removed[..h] + [s[g]] + removed[h..]
    ensures multiset(r) == multiset(s)
  {
    assert multiset(r) == multiset(removed[..h]) + multiset{s[g]} + multiset(removed[h..]);
    assert removed == removed[..h] + removed[h..];
    assert multiset(removed) == multiset(removed[..h]) + multiset(removed[h..]);
    assert multiset(removed) == multiset(s[..g]) + multiset(s[g + 1..]);
    assert s == s[..g] + [s[g]] + s[g + 1..];
    assert multiset(s) == multiset(s[..g]) + multiset{s[g]} + multiset(s[g + 1..]);
    assert multiset(r) == multiset(removed) + multiset{s[g]};
    assert multiset(s) == multiset(removed) + multiset{s[g]};
  }

  lemma RelocateIndices<T>(s: seq<T>, g: int, h: int, removed: seq<T>, r: seq<T>)
    requires 0 <= g < |s| && 0 <= h < |s|
    requires removed == s[..g] + s[g + 1..] && r == removed[..h] + [s[g]] + removed[h..]
    ensures |r| == |s| && r[h] == s[g]
    ensures r[..h] + r[h + 1..] == s[..g] + s[g + 1..]
    ensures forall k :: 0 <= k < |s| && ((k < g && k < h) || (k > g && k > h)) ==> r[k] == s[k]
  {
    assert r[..h] == removed[..h] && r[h + 1..] == removed[h..];
    assert removed == removed[..h] + removed[h..];
    forall k | 0 <= k < |s| && ((k < g && k < h) || (k > g && k > h)) ensures r[k] == s[k] {
      if k < h {
        assert r[k] == removed[k];
      } else {
        assert r[k] == removed[k - 1];
      }
    }
  }

  /** Whether hovering over `target` while dragging moves anything. */
  ghost predicate Moves(lists: seq<Checklist>, tab: string, dragged: Option<string>, target: string) {
    && dragged.Some? && dragged.value != "" && dragged.value != target
    && InActiveTab(lists, tab, dragged.value) && InActiveTab(lists, tab, target)
  }

  /**
   * `handleDragOver`: nothing without a dragged list, over itself, or when
   * either list is not in the active tab. Otherwise the dragged list is
   * taken out and put back at the position the target had, in the whole
   * sequence of lists.
   */
  function DragOver(lists: seq<Checklist>, tab: string, dragged: Option<string>, target: string)
    : (r: seq<Checklist>)
    ensures |r| == |lists| && multiset(r) == multiset(lists)
    ensures !Moves(lists, tab, dragged, target) ==> r == lists
    ensures Moves(lists, tab, dragged, target) ==>
      var g := FindIndex(lists, dragged.value);
      var h := FindIndex(lists, target);
      && 0 <= g < |lists| && 0 <= h < |lists| && g != h
      && r == Relocate(lists, g, h)
  {
    if dragged.None? || dragged.value == "" || dragged.value == target then lists
    else
      var current := InTab(lists, tab);
      FindInTab(lists, tab, dragged.value);
      FindInTab(lists, tab, target);
      if FindIndex(current, dragged.value) == -1 || FindIndex(current, target) == -1 then lists
      else
        Relocate(lists, FindIndex(lists, dragged.value), FindIndex(lists, target))
  }

  /** `handleDragEnd`: every list's order becomes its position. */
  function Renumber(lists: seq<Checklist>): (r: seq<Checklist>)
    ensures |r| == |lists|
    ensures forall i :: 0 <= i < |lists| ==> r[i].order == i && r[i].(order := lists[i].order) == lists[i]
    ensures DataService.SortedByOrder(r)
  {
    seq(|lists|, i requires 0 <= i < |lists| => lists[i].(order := i))
  }

  /** Sorting the renumbered lists by order gives them back unchanged: a later listing keeps the dropped order. */
  lemma RenumberSurvivesListing(lists: seq<Checklist>)
    ensures DataService.SortByOrder(Renumber(lists)) == Renumber(lists)
  {
    DataService.SortKeepsSorted(Renumber(lists));
  }

  /** Deleting a tab: every list in it moves to the default category, the others are untouched. */
  function MoveCategoryToMain(lists: seq<Checklist>, cat: string): (r: seq<Checklist>)
    ensures |r| == |lists|
    ensures forall i :: 0 <= i < |lists| ==>
      if lists[i].category == cat then r[i] == lists[i].(category := Main) else r[i] == lists[i]
    ensures cat != Main ==> forall i :: 0 <= i < |r| ==> r[i].category != cat
  {
    seq(|lists|, i requires 0 <= i < |lists| =>
      if lists[i].category == cat then lists[i].(category := Main) else lists[i])
  }

  /** `executeMove`: the list with that id takes the target category; nothing else changes. */
  function MoveList(lists: seq<Checklist>, id: string, target: string): (r: seq<Checklist>)
    ensures |r| == |lists|
    ensures forall i :: 0 <= i < |lists| ==>
      if lists[i].id == id then r[i] == lists[i].(category := target) else r[i] == lists[i]
  {
    seq(|lists|, i requires 0 <= i < |lists| =>
      if lists[i].id == id then lists[i].(category := target) else lists[i])
  }

  /** After a move, the moved list is shown in the target tab and no longer in any other. */
  lemma MovedListShownInTarget(lists: seq<Checklist>, id: string, target: string, i: int)
    requires 0 <= i < |lists| && lists[i].id == id
    ensures var r := MoveList(lists, id, target);
      r[i] in InTab(r, target) && forall t :: t != target ==> r[i] !in InTab(r, t)
  {
    var r := MoveList(lists, id, target);
    InTabMembers(r, target, r[i]);
    forall t | t != target ensures r[i] !in InTab(r, t) {
      InTabMembers(r, t, r[i]);
    }
  }

  /* ---------------------------------------------------------------------
   * The screen
   * ------------------------------------------------------------------- */

  class HomeScreen {
    var lists: seq<Checklist>
    var categories: seq<string>
    var activeTab: string
    var isCreatingTab: bool
    var newTabName: string
    var moveTarget: Option<Checklist>
    var draggedId: Option<string>

    /** The default tab comes first and no tab appears twice. */
    ghost predicate Valid()
      reads this
    {
      |categories| >= 1 && categories[0] == Main && NoDup(categories)
    }

    constructor ()
      ensures Valid()
      ensures lists == [] && categories == [Main] && activeTab == Main
      ensures !isCreatingTab && newTabName == "" && moveTarget == None && draggedId == None
    {
      lists := [];
      categories := [Main];
      activeTab := Main;
      isCreatingTab := false;
      newTabName := "";
      moveTarget := None;
      draggedId := None;
    }

    /** The lists of the active tab. */
    function Displayed(): (r: seq<Checklist>)
      reads this
      ensures forall x :: x in r <==> x in lists && x.category == activeTab
    {
      var r := InTab(lists, activeTab);
      forall x ensures x in r <==> x in lists && x.category == activeTab {
        InTabMembers(lists, activeTab, x);
      }
      r
    }

    /** `loadData` with the listing it received: tabs rederived; an active tab no longer derived falls back to the default. */
    method LoadData(listsData: seq<Checklist>)
      modifies this
      ensures Valid()
      ensures lists == listsData && TabsFor(listsData, None, categories)
      ensures activeTab == (if Derived(listsData, None, old(activeTab)) then old(activeTab) else Main)
      ensures activeTab in categories
      ensures isCreatingTab == old(isCreatingTab) && newTabName == old(newTabName)
      ensures moveTarget == old(moveTarget) && draggedId == old(draggedId)
    {
      var cats := DeriveCategories(listsData, None);
      lists := listsData;
      categories := cats;
      if !(activeTab in cats) {
        activeTab := Main;
      }
    }

    method StartAddCategory()
      modifies this
      ensures isCreatingTab && newTabName == ""
      ensures lists == old(lists) && categories == old(categories) && activeTab == old(activeTab)
      ensures moveTarget == old(moveTarget) && draggedId == old(draggedId)
    {
      isCreatingTab := true;
      newTabName := "";
    }

    method TypeTabName(name: string)
      modifies this
      ensures newTabName == name && isCreatingTab == old(isCreatingTab)
      ensures lists == old(lists) && categories == old(categories) && activeTab == old(activeTab)
      ensures moveTarget == old(moveTarget) && draggedId == old(draggedId)
    {
      newTabName := name;
    }

    method CancelAddCategory()
      modifies this
      ensures !isCreatingTab && newTabName == old(newTabName)
      ensures lists == old(lists) && categories == old(categories) && activeTab == old(activeTab)
      ensures moveTarget == old(moveTarget) && draggedId == old(draggedId)
    {
      isCreatingTab := false;
    }

    /**
     * `handleConfirmAddCategory`: the trimmed name, when not empty, is
     * appended if absent and becomes the active tab; the input closes either way.
     */
    method ConfirmAddCategory()
      requires Valid()
      modifies this
      ensures Valid()
      ensures var name := Trim(old(newTabName));
        && (name == "" ==> categories == old(categories) && activeTab == old(activeTab))
        && (name != "" ==> categories == AppendIfAbsent(old(categories), name) && activeTab == name)
      ensures activeTab in categories || activeTab == old(activeTab)
      ensures !isCreatingTab && newTabName == old(newTabName)
      ensures lists == old(lists) && moveTarget == old(moveTarget) && draggedId == old(draggedId)
    {
      var name := Trim(newTabName);
      if name != "" {
        categories := AppendIfAbsent(categories, name);
        activeTab := name;
      }
      isCreatingTab := false;
    }

    /**
     * `handleDeleteCategory`: the default tab cannot be deleted, and an
     * unconfirmed deletion does nothing. Otherwise the tab's lists move to
     * the default category, the tabs are rederived and the default tab
     * becomes active; `moved` are the lists whose category is rewritten in the store.
     */
    method DeleteCategory(cat: string, confirmed: bool) returns (moved: seq<Checklist>)
      requires Valid()
      modifies this
      ensures Valid()
      ensures cat == Main || !confirmed ==>
        lists == old(lists) && categories == old(categories) && activeTab == old(activeTab) && moved == []
      ensures cat != Main && confirmed ==>
        && lists == MoveCategoryToMain(old(lists), cat)
        && TabsFor(lists, None, categories)
        && cat !in categories
        && activeTab == Main
        && moved == InTab(old(lists), cat)
      ensures isCreatingTab == old(isCreatingTab) && newTabName == old(newTabName)
      ensures moveTarget == old(moveTarget) && draggedId == old(draggedId)
    {
      if cat == Main || !confirmed {
        return [];
      }
      moved := InTab(lists, cat);
      lists := MoveCategoryToMain(lists, cat);
      categories := DeriveCategories(lists, None);
      activeTab := Main;
    }

    method OpenMove(l: Checklist)
      modifies this
      ensures moveTarget == Some(l)
      ensures lists == old(lists) && categories == old(categories) && activeTab == old(activeTab)
      ensures isCreatingTab == old(isCreatingTab) && newTabName == old(newTabName) && draggedId == old(draggedId)
    {
      moveTarget := Some(l);
    }

    method CloseMove()
      modifies this
      ensures moveTarget == None
      ensures lists == old(lists) && categories == old(categories) && activeTab == old(activeTab)
      ensures isCreatingTab == old(isCreatingTab) && newTabName == old(newTabName) && draggedId == old(draggedId)
    {
      moveTarget := None;
    }

    /**
     * `executeMove`: without a chosen list nothing happens. Otherwise the
     * list takes the target category, the tabs are rederived and the dialog
     * closes; `moved` is the id whose category is rewritten in the store.
     */
    method ExecuteMove(target: string) returns (moved: Option<string>)
      requires Valid()
      modifies this
      ensures Valid()
      ensures old(moveTarget).None? ==>
        lists == old(lists) && categories == old(categories) && moved == None && moveTarget == None
      ensures old(moveTarget).Some? ==>
        && lists == MoveList(old(lists), old(moveTarget).value.id, target)
        && TabsFor(lists, None, categories)
        && moved == Some(old(moveTarget).value.id)
        && moveTarget == None
      ensures activeTab == old(activeTab) && draggedId == old(draggedId)
      ensures isCreatingTab == old(isCreatingTab) && newTabName == old(newTabName)
    {
      if moveTarget.None? {
        return None;
      }
      var id := moveTarget.value.id;
      lists := MoveList(lists, id, target);
      categories := DeriveCategories(lists, None);
      moved := Some(id);
      moveTarget := None;
    }

    method DragStart(id: string)
      modifies this
      ensures draggedId == Some(id)
      ensures lists == old(lists) && categories == old(categories) && activeTab == old(activeTab)
      ensures isCreatingTab == old(isCreatingTab) && newTabName == old(newTabName) && moveTarget == old(moveTarget)
    {
      draggedId := Some(id);
    }

    /** Hovering a dragged list over the list `targetId`. */
    method DragOverRow(targetId: string)
      requires Valid()
      modifies this
      ensures Valid()
      ensures lists == DragOver(old(lists), activeTab, draggedId, targetId)
      ensures multiset(lists) == multiset(old(lists))
      ensures categories == old(categories) && activeTab == old(activeTab) && draggedId == old(draggedId)
      ensures isCreatingTab == old(isCreatingTab) && newTabName == old(newTabName) && moveTarget == old(moveTarget)
    {
      lists := DragOver(lists, activeTab, draggedId, targetId);
    }

    /**
     * `handleDragEnd`: the drag ends and the lists, numbered by position,
     * are sent to the store; the screen's own lists keep their old orders.
     */
    method DragEnd() returns (persisted: seq<Checklist>)
      modifies this
      ensures draggedId == None && persisted == Renumber(lists)
      ensures lists == old(lists) && categories == old(categories) && activeTab == old(activeTab)
      ensures isCreatingTab == old(isCreatingTab) && newTabName == old(newTabName) && moveTarget == old(moveTarget)
    {
      draggedId := None;
      persisted := Renumber(lists);
    }
  }
}
