/**
 * The data service (src/services/data.ts): checklist records as the record
 * store returns them, normalised and sorted for the application; order
 * assignment for new records; reading, updating and decoding records; the
 * locally stored category names; and the initial item of a new outline.
 * The store is a sequence of records in the order its listing returns them.
 */
module DataService {
  import opened Types
  import opened SeqUtil

  /** A record as the store holds it: category and order may be missing. */
  datatype RawRecord = RawRecord(
    id: string,
    title: string,
    content: Content,
    category: Option<string>,
    order: Option<int>,
    createdAt: string,
    updatedAt: string)

  /* ---------------------------------------------------------------------
   * Listing: normalisation and a stable sort by order
   * ------------------------------------------------------------------- */

  /** A missing or empty category becomes the default one; a missing order becomes 0. */
  function Normalize(r: RawRecord): (c: Checklist)
    ensures c.category != ""
    ensures r.category.Some? && r.category.value != "" ==> c.category == r.category.value
    ensures r.category.None? || r.category.value == "" ==> c.category == Main
    ensures c.order == r.order.GetOr(0)
    ensures (c.id, c.title, c.content, c.createdAt, c.updatedAt)
         == (r.id, r.title, r.content, r.createdAt, r.updatedAt)
  {
    Checklist(r.id, r.title, r.content,
              if r.category.Some? && r.category.value != "" then r.category.value else Main,
              r.order.GetOr(0), r.createdAt, r.updatedAt)
  }

  function NormalizeAll(store: seq<RawRecord>): (r: seq<Checklist>)
    ensures |r| == |store| && forall i :: 0 <= i < |store| ==> r[i] == Normalize(store[i])
  {
    seq(|store|, i requires 0 <= i < |store| => Normalize(store[i]))
  }

  /** Ascending by order, each record at most its successor. */
  ghost predicate SortedByOrder(s: seq<Checklist>) {
    forall i :: 0 <= i < |s| - 1 ==> s[i].order <= s[i + 1].order
  }

  /** The records of order `k`, in their original relative order. */
  function WithOrder(s: seq<Checklist>, k: int): (r: seq<Checklist>)
    ensures |r| <= |s|
  {
    if s == [] then []
    else
      assert s == [s[0]] + s[1..];
      (if s[0].order == k then [s[0]] else []) + WithOrder(s[1..], k)
  }

  /** Inserts `x` before the first record whose order is not smaller. */
  function InsertByOrder(x: Checklist, s: seq<Checklist>): (r: seq<Checklist>)
    ensures |r| == |s| + 1
    ensures multiset(r) == multiset(s) + multiset{x}
    ensures r[0] == x || (s != [] && r[0] == s[0])
  {
    if s == [] then [x]
    else if x.order <= s[0].order then [x] + s
    else
      assert s == [s[0]] + s[1..];
      [s[0]] + InsertByOrder(x, s[1..])
  }

  lemma {:induction false} InsertKeepsSorted(x: Checklist, s: seq<Checklist>)
    requires SortedByOrder(s)
    ensures SortedByOrder(InsertByOrder(x, s))
  {
    if s != [] && x.order > s[0].order {
      var rest := InsertByOrder(x, s[1..]);
      InsertKeepsSorted(x, s[1..]);
      var r := [s[0]] + rest;
      assert r == InsertByOrder(x, s);
      assert rest[0] == x || rest[0] == s[1];
      forall i | 0 <= i < |r| - 1 ensures r[i].order <= r[i + 1].order {
        if i > 0 {
          assert r[i] == rest[i - 1] && r[i + 1] == rest[i];
        }
      }
    }
  }

  /** Sorting by ascending order; records of equal order keep their relative order. */
  function SortByOrder(s: seq<Checklist>): (r: seq<Checklist>)
    ensures |r| == |s|
    ensures SortedByOrder(r)
    ensures multiset(r) == multiset(s)
  {
    if s == [] then []
    else
      assert s == [s[0]] + s[1..];
      InsertKeepsSorted(s[0], SortByOrder(s[1..]));
      InsertByOrder(s[0], SortByOrder(s[1..]))
  }

  /** The records of order `k` are exactly the members of `s` with that order. */
  lemma {:induction false} WithOrderMembers(s: seq<Checklist>, k: int, x: Checklist)
    ensures x in WithOrder(s, k) <==> x in s && x.order == k
  {
    if s != [] {
      WithOrderMembers(s[1..], k, x);
      assert s == [s[0]] + s[1..];
    }
  }

  lemma WithOrderCons(a: Checklist, t: seq<Checklist>, k: int)
    ensures WithOrder([a] + t, k) == (if a.order == k then [a] else []) + WithOrder(t, k)
  {
    assert ([a] + t)[1..] == t;
  }

  /** Inserting `x` puts it ahead of every record of its own order. */
  lemma {:induction false} InsertWithOrder(x: Checklist, s: seq<Checklist>, k: int)
    ensures WithOrder(InsertByOrder(x, s), k) == (if x.order == k then [x] else []) + WithOrder(s, k)
  {
    if s == [] {
      WithOrderCons(x, [], k);
    } else if x.order <= s[0].order {
      WithOrderCons(x, s, k);
    } else {
      var t := InsertByOrder(x, s[1..]);
      InsertWithOrder(x, s[1..], k);
      WithOrderCons(s[0], t, k);
      WithOrderCons(s[0], s[1..], k);
      assert s == [s[0]] + s[1..];
      assert InsertByOrder(x, s) == [s[0]] + t;
      if s[0].order == k {
        assert x.order != k;
        assert WithOrder(t, k) == WithOrder(s[1..], k);
        assert WithOrder([s[0]] + t, k) == [s[0]] + WithOrder(s[1..], k) == WithOrder(s, k);
      } else {
        assert WithOrder([s[0]] + t, k) == WithOrder(t, k);
        assert WithOrder(s, k) == WithOrder(s[1..], k);
      }
    }
  }

  /** The sort is stable: for every order value, those records keep their relative order. */
  lemma {:induction false} SortStable(s: seq<Checklist>, k: int)
    ensures WithOrder(SortByOrder(s), k) == WithOrder(s, k)
  {
    if s != [] {
      SortStable(s[1..], k);
      InsertWithOrder(s[0], SortByOrder(s[1..]), k);
      WithOrderCons(s[0], s[1..], k);
      assert s == [s[0]] + s[1..];
    }
  }

  lemma {:induction false} SortedFirstIsLeast(s: seq<Checklist>, j: int)
    requires SortedByOrder(s) && 0 <= j < |s|
    ensures s[0].order <= s[j].order
  {
    if j > 0 {
      SortedFirstIsLeast(s[..j], j - 1);
    }
  }

  /** Two sorted sequences that agree on the records of every order value start with the same record. */
  lemma SameHead(r1: seq<Checklist>, r2: seq<Checklist>)
    requires SortedByOrder(r1) && SortedByOrder(r2) && r1 != [] && r2 != []
    requires WithOrder(r1, r1[0].order) == WithOrder(r2, r1[0].order)
    requires WithOrder(r1, r2[0].order) == WithOrder(r2, r2[0].order)
    ensures r1[0] == r2[0]
  {
    LeastOrderAgrees(r1, r2);
    HeadFirstOfOrder(r1);
    HeadFirstOfOrder(r2);
  }

  /** Both sequences start with their least order, and that order is shared. */
  lemma LeastOrderAgrees(r1: seq<Checklist>, r2: seq<Checklist>)
    requires SortedByOrder(r1) && SortedByOrder(r2) && r1 != [] && r2 != []
    requires WithOrder(r1, r1[0].order) == WithOrder(r2, r1[0].order)
    requires WithOrder(r1, r2[0].order) == WithOrder(r2, r2[0].order)
    ensures r1[0].order == r2[0].order
  {
    var m1, m2 := r1[0].order, r2[0].order;
    WithOrderMembers(r1, m1, r1[0]);
    WithOrderMembers(r2, m1, r1[0]);
    WithOrderMembers(r2, m2, r2[0]);
    WithOrderMembers(r1, m2, r2[0]);
    var j2 :| 0 <= j2 < |r2| && r2[j2] == r1[0];
    var j1 :| 0 <= j1 < |r1| && r1[j1] == r2[0];
    SortedFirstIsLeast(r1, j1);
    SortedFirstIsLeast(r2, j2);
  }

  /** The first record is the first of its own order. */
  lemma HeadFirstOfOrder(r: seq<Checklist>)
    requires r != []
    ensures WithOrder(r, r[0].order) != [] && WithOrder(r, r[0].order)[0] == r[0]
  {
    WithOrderCons(r[0], r[1..], r[0].order);
    assert r == [r[0]] + r[1..];
  }

  /** Removing the same head from both keeps the agreement on order value `k`. */
  lemma TailsAgree(r1: seq<Checklist>, r2: seq<Checklist>, k: int)
    requires r1 != [] && r2 != [] && r1[0] == r2[0]
    requires WithOrder(r1, k) == WithOrder(r2, k)
    ensures WithOrder(r1[1..], k) == WithOrder(r2[1..], k)
  {
    assert r1 == [r1[0]] + r1[1..] && r2 == [r2[0]] + r2[1..];
    WithOrderCons(r1[0], r1[1..], k);
    WithOrderCons(r2[0], r2[1..], k);
    var h: seq<Checklist> := if r1[0].order == k then [r1[0]] else [];
    assert WithOrder(r1[1..], k) == (h + WithOrder(r1[1..], k))[|h|..];
    assert WithOrder(r2[1..], k) == (h + WithOrder(r2[1..], k))[|h|..];
  }

  lemma SortedTail(s: seq<Checklist>)
    requires SortedByOrder(s) && s != []
    ensures SortedByOrder(s[1..])
  {
  }

  /**
   * A stable sort has exactly one possible result: two sequences sorted by
   * order that agree on the records of every order value are equal.
   */
  lemma {:induction false} StableSortUnique(r1: seq<Checklist>, r2: seq<Checklist>)
    requires SortedByOrder(r1) && SortedByOrder(r2)
    requires forall k :: WithOrder(r1, k) == WithOrder(r2, k)
    ensures r1 == r2
    decreases |r1|
  {
    if r1 != [] && r2 != [] {
      SameHead(r1, r2);
      forall k ensures WithOrder(r1[1..], k) == WithOrder(r2[1..], k) {
        TailsAgree(r1, r2, k);
      }
      SortedTail(r1);
      SortedTail(r2);
      StableSortUnique(r1[1..], r2[1..]);
      assert r1 == [r1[0]] + r1[1..] && r2 == [r2[0]] + r2[1..];
    } else if r1 != [] {
      WithOrderMembers(r1, r1[0].order, r1[0]);
    } else if r2 != [] {
      WithOrderMembers(r2, r2[0].order, r2[0]);
    }
  }

  /** A sequence already sorted by order is left as it is by the sort. */
  lemma SortKeepsSorted(s: seq<Checklist>)
    requires SortedByOrder(s)
    ensures SortByOrder(s) == s
  {
    forall k ensures WithOrder(SortByOrder(s), k) == WithOrder(s, k) {
      SortStable(s, k);
    }
    StableSortUnique(SortByOrder(s), s);
  }

  /**
   * `listChecklists`: every record normalised, then sorted by ascending
   * order with ties in store order.
   */
  function ListChecklists(store: seq<RawRecord>): (r: seq<Checklist>)
    ensures |r| == |store|
    ensures SortedByOrder(r)
    ensures multiset(r) == multiset(NormalizeAll(store))
    ensures forall k :: WithOrder(r, k) == WithOrder(NormalizeAll(store), k)
    ensures forall c :: c in r ==> c.category != ""
  {
    var all := NormalizeAll(store);
    var r := SortByOrder(all);
    forall k ensures WithOrder(r, k) == WithOrder(all, k) {
      SortStable(all, k);
    }
    assert forall c :: c in r ==> c in multiset(all);
    r
  }

  /**
   * The listing is the one stable sort of the normalised records: any
   * sequence sorted by order that keeps the records of each order value in
   * store order is equal to it.
   */
  lemma ListingIsTheStableSort(store: seq<RawRecord>, r: seq<Checklist>)
    requires SortedByOrder(r)
    requires forall k :: WithOrder(r, k) == WithOrder(NormalizeAll(store), k)
    ensures r == ListChecklists(store)
  {
    StableSortUnique(r, ListChecklists(store));
  }

  /* ---------------------------------------------------------------------
   * Creating: the next order
   * ------------------------------------------------------------------- */

  /** The largest order among the records (a missing order counts as 0), starting from `acc`. */
  function MaxOrderFrom(s: seq<Checklist>, acc: int): (m: int)
    ensures m >= acc
    ensures forall i :: 0 <= i < |s| ==> s[i].order <= m
    ensures m == acc || exists i :: 0 <= i < |s| && s[i].order == m
  {
    if s == [] then acc
    else
      var m := MaxOrderFrom(s[1..], if s[0].order > acc then s[0].order else acc);
      assert forall i :: 1 <= i < |s| ==> s[i] == s[1..][i - 1];
      m
  }

  /**
   * The order of a new record: one more than the largest existing order
   * and 0, so at least 1 (also on an empty store) and above every existing order.
   */
  function NextOrder(lists: seq<Checklist>): (r: int)
    ensures r >= 1
    ensures forall i :: 0 <= i < |lists| ==> lists[i].order < r
    ensures r == 1 || exists i :: 0 <= i < |lists| && lists[i].order == r - 1
  {
    MaxOrderFrom(lists, 0) + 1
  }

  /**
   * `createChecklist`: the store gains one record at the end, holding the
   * encoded items, the category and the next order; the record is returned
   * normalised.
   */
  function CreateChecklist(store: seq<RawRecord>, title: string, items: seq<Item>, category: string,
                           newId: string, now: string): (r: (seq<RawRecord>, Checklist))
    ensures |r.0| == |store| + 1 && r.0[..|store|] == store
    ensures r.0[|store|].id == newId && Normalize(r.0[|store|]) == r.1
    ensures r.1.title == title && r.1.content == Encoded(items)
    ensures r.1.category == (if category == "" then Main else category)
    ensures r.1.order == NextOrder(ListChecklists(store))
    ensures r.1.order >= 1
    ensures forall i :: 0 <= i < |store| ==> Normalize(store[i]).order < r.1.order
    ensures r.1.createdAt == now && r.1.updatedAt == now
  {
    var lists := ListChecklists(store);
    var order := NextOrder(lists);
    forall i | 0 <= i < |store| ensures Normalize(store[i]).order < order {
      assert Normalize(store[i]) in multiset(NormalizeAll(store));
      assert Normalize(store[i]) in lists;
    }
    var raw := RawRecord(newId, title, Encoded(items), Some(category), Some(order), now, now);
    (store + [raw], Normalize(raw))
  }

  /* ---------------------------------------------------------------------
   * Reading and updating one record
   * ------------------------------------------------------------------- */

  /** The position of the record with id `id`, if the store has one (the first, if several). */
  function Find(store: seq<RawRecord>, id: string): (r: Option<nat>)
    ensures r.None? <==> forall i :: 0 <= i < |store| ==> store[i].id != id
    ensures r.Some? ==> r.value < |store| && store[r.value].id == id
    ensures r.Some? ==> forall i :: 0 <= i < r.value ==> store[i].id != id
  {
    if store == [] then None
    else if store[0].id == id then Some(0)
    else
      match Find(store[1..], id)
      case None => None
      case Some(k) => Some(k + 1)
  }

  /**
   * Decoding stored content, with the text format left abstract: encoded items
   * come back as they were encoded; content that does not parse yields no items.
   */
  function Decode(c: Content): (items: seq<Item>)
    ensures c.Malformed? ==> items == []
    ensures c.Encoded? ==> items == c.items
  {
    match c
    case Encoded(items) => items
    case Malformed => []
  }

  /** `getChecklist`: nothing for an unknown id; otherwise the normalised record with its items decoded. */
  function GetChecklist(store: seq<RawRecord>, id: string): (r: Option<ParsedChecklist>)
    ensures r.None? <==> forall i :: 0 <= i < |store| ==> store[i].id != id
    ensures r.Some? ==> r.value.id == id && r.value.category != ""
    ensures r.Some? ==> exists i :: (0 <= i < |store| && store[i].id == id
      && r.value.items == Decode(store[i].content)
      && r.value.order == store[i].order.GetOr(0))
    ensures r.Some? ==> (
      && Find(store, id).Some?
      && var raw := store[Find(store, id).value];
      && r.value.title == raw.title
      && r.value.items == Decode(raw.content)
      && r.value.category == Normalize(raw).category
      && r.value.order == raw.order.GetOr(0)
      && r.value.createdAt == raw.createdAt && r.value.updatedAt == raw.updatedAt)
  {
    match Find(store, id)
    case None => None
    case Some(i) =>
      var c := Normalize(store[i]);
      Some(ParsedChecklist(c.id, c.title, Decode(c.content), c.category, c.order, c.createdAt, c.updatedAt))
  }

  /** The fields a caller may pass to an update. */
  datatype ChecklistPatch = ChecklistPatch(
    title: Option<string>,
    content: Option<Content>,
    category: Option<string>,
    order: Option<int>,
    createdAt: Option<string>,
    updatedAt: Option<string>)

  /** The fields actually sent to the store: the timestamps are never forwarded. */
  datatype StoreUpdate = StoreUpdate(
    title: Option<string>,
    content: Option<Content>,
    category: Option<string>,
    order: Option<int>)

  function Strip(p: ChecklistPatch): (u: StoreUpdate)
    ensures u.title == p.title && u.content == p.content
    ensures u.category == p.category && u.order == p.order
  {
    StoreUpdate(p.title, p.content, p.category, p.order)
  }

  function ApplyUpdate(r: RawRecord, u: StoreUpdate): (n: RawRecord)
    ensures n.id == r.id && n.createdAt == r.createdAt && n.updatedAt == r.updatedAt
    ensures n.title == u.title.GetOr(r.title) && n.content == u.content.GetOr(r.content)
    ensures n.category == (if u.category.Some? then u.category else r.category)
    ensures n.order == (if u.order.Some? then u.order else r.order)
  {
    r.(title := u.title.GetOr(r.title), content := u.content.GetOr(r.content),
       category := if u.category.Some? then u.category else r.category,
       order := if u.order.Some? then u.order else r.order)
  }

  /**
   * `updateChecklist`: fails when the store has no record with that id;
   * otherwise that record takes the given fields, except the timestamps,
   * and is returned normalised. No other record changes.
   */
  function UpdateChecklist(store: seq<RawRecord>, id: string, patch: ChecklistPatch)
    : (r: Result<(seq<RawRecord>, Checklist)>)
    ensures r.Err? <==> forall i :: 0 <= i < |store| ==> store[i].id != id
    ensures r.Ok? ==>
      var (s, c) := r.value;
      && |s| == |store|
      && (forall i :: 0 <= i < |store| ==> s[i].createdAt == store[i].createdAt && s[i].updatedAt == store[i].updatedAt)
      && (exists i :: 0 <= i < |store| && store[i].id == id
            && s == store[i := ApplyUpdate(store[i], Strip(patch))] && c == Normalize(s[i]))
  {
    match Find(store, id)
    case None => Err("Update failed")
    case Some(i) =>
      var s := store[i := ApplyUpdate(store[i], Strip(patch))];
      Ok((s, Normalize(s[i])))
  }

  /** An update never changes the timestamps of the record, whatever the patch carries. */
  lemma UpdateKeepsTimestamps(store: seq<RawRecord>, id: string, patch: ChecklistPatch)
    requires UpdateChecklist(store, id, patch).Ok?
    ensures var c := UpdateChecklist(store, id, patch).value.1;
      exists i :: 0 <= i < |store| && store[i].id == id
        && c.createdAt == store[i].createdAt && c.updatedAt == store[i].updatedAt
  {
  }

  /* ---------------------------------------------------------------------
   * Category names kept on the device, and the initial item
   * ------------------------------------------------------------------- */

  /** Every record whose (normalised) category is `name` is moved to the default category. */
  function ReassignToMain(store: seq<RawRecord>, name: string): (r: seq<RawRecord>)
    ensures |r| == |store|
    ensures forall i :: 0 <= i < |store| ==>
      if Normalize(store[i]).category == name then r[i] == store[i].(category := Some(Main))
      else r[i] == store[i]
    ensures forall i :: 0 <= i < |r| ==> Normalize(r[i]).category != name || name == Main
  {
    seq(|store|, i requires 0 <= i < |store| =>
      if Normalize(store[i]).category == name then store[i].(category := Some(Main)) else store[i])
  }

  class CategoryStorage {
    /** The stored list of names; None when nothing (or an empty value) is stored. */
    var stored: Option<seq<string>>

    constructor (initial: Option<seq<string>>)
      ensures stored == initial
    {
      stored := initial;
    }

    /** The stored names, or just the default category when nothing is stored. */
    function Categories(): (cats: seq<string>)
      reads this
      ensures stored.None? ==> cats == [Main]
      ensures stored.Some? ==> cats == stored.value
    {
      stored.GetOr([Main])
    }

    /** `addCategory`: appends a name that is not yet there and stores the result; otherwise changes nothing. */
    method AddCategory(name: string) returns (cats: seq<string>)
      modifies this
      ensures cats == AppendIfAbsent(old(Categories()), name)
      ensures name in old(Categories()) ==> stored == old(stored)
      ensures name !in old(Categories()) ==> stored == Some(cats)
    {
      var current := Categories();
      if name !in current {
        cats := current + [name];
        stored := Some(cats);
      } else {
        cats := current;
      }
    }

    /**
     * `deleteCategory`: stores the names without `name`, and moves the
     * records of that category to the default category.
     */
    method DeleteCategory(name: string, store: seq<RawRecord>) returns (cats: seq<string>, newStore: seq<RawRecord>)
      modifies this
      ensures cats == Without(old(Categories()), name) && stored == Some(cats)
      ensures newStore == ReassignToMain(store, name)
    {
      cats := Without(Categories(), name);
      stored := Some(cats);
      newStore := ReassignToMain(store, name);
    }
  }

  /** `generateInitialItem`: a blank, unchecked, expanded task at indent 0 with a fresh id. */
  function GenerateInitialItem(freshId: string): (r: Item)
    ensures r.id == freshId && r.text == "" && !r.checked && r.nodeType == Task
    ensures r.indent == 0 && !r.collapsed
  {
    Item(freshId, "", false, Task, 0, false)
  }
}
