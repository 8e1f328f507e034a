/** The children of an array or object as a doubly linked list: add, insert, detach and replace. */
module ItemList {
  import opened Heap

  ghost predicate HeadsDiffer(ts: seq<Tree>) {
    forall i, j :: 0 <= i < j < |ts| ==> ts[i].item != ts[j].item
  }

  /** The children of `parent` are the items of `ts`, in this order, and `next` and `prev` are inverse to each other. */
  ghost predicate Siblings(parent: Item, ts: seq<Tree>)
    reads parent`child, Heads(ts)`next, Heads(ts)`prev
  {
    parent.child == First(ts) && Linked(ts) && HeadsDiffer(ts)
  }

  /** An item that is in no list. */
  ghost predicate Unattached(item: Item, ts: seq<Tree>)
    reads item`next, item`prev
  {
    item.next == null && item.prev == null && forall i :: 0 <= i < |ts| ==> ts[i].item != item
  }

  function Without(ts: seq<Tree>, i: nat): seq<Tree>
    requires i < |ts|
  {
    ts[..i] + ts[i + 1..]
  }

  function With(ts: seq<Tree>, i: nat, t: Tree): seq<Tree> {
    if i < |ts| then ts[..i] + [t] + ts[i..] else ts + [t]
  }

  /** get_array_item. */
  method GetArrayItem(parent: Item?, index: nat, ghost ts: seq<Tree>) returns (item: Item?)
    requires parent != null ==> Siblings(parent, ts)
    ensures parent == null ==> item == null
    ensures parent != null ==> item == if index < |ts| then ts[index].item else null
  {
    if parent == null {
      return null;
    }
    item := parent.child;
    var remaining: nat := index;
    ghost var i := 0;
    while item != null && remaining > 0
      invariant i + remaining == index && i <= |ts| && item == if i < |ts| then ts[i].item else null
      decreases remaining
    {
      remaining := remaining - 1;
      item := item.next;
      i := i + 1;
    }
  }

  method SuffixObject(prev: Item, item: Item)
    modifies prev`next, item`prev
    ensures prev.next == item && item.prev == prev
  {
    prev.next := item;
    item.prev := prev;
  }

  /** add_item_to_array: append. */
  method AddItemToArray(parent: Item?, item: Item?, ghost ts: seq<Tree>, ghost t: Tree) returns (ok: bool)
    requires parent != null && item != null ==> Siblings(parent, ts) && Unattached(item, ts) && t.item == item
    modifies (if parent == null then {} else {parent})`child
    modifies (if item == null then {} else {item})`prev, Heads(ts)`next
    ensures ok <==> parent != null && item != null
    ensures ok ==> Siblings(parent, ts + [t])
  {
    if item == null || parent == null {
      return false;
    }
    var child := parent.child;
    if child == null {
      parent.child := item;
    } else {
      ghost var i := 0;
      while child.next != null
        invariant i < |ts| && child == ts[i].item && Siblings(parent, ts)
        decreases |ts| - i
      {
        child := child.next;
        i := i + 1;
      }
      SuffixObject(child, item);
    }
    ok := true;
  }

  /** cJSON_DetachItemViaPointer, for the i-th child. */
  method DetachItemViaPointer(parent: Item, item: Item, ghost ts: seq<Tree>, ghost i: nat)
    requires Siblings(parent, ts) && i < |ts| && item == ts[i].item
    modifies parent`child, Heads(ts)`next, Heads(ts)`prev
    ensures Siblings(parent, Without(ts, i)) && Unattached(item, Without(ts, i))
  {
    if item.prev != null {
      item.prev.next := item.next;
    }
    if item.next != null {
      item.next.prev := item.prev;
    }
    if item == parent.child {
      parent.child := item.next;
    }
    item.prev := null;
    item.next := null;
  }

  /** cJSON_DetachItemFromArray. */
  method DetachItemFromArray(parent: Item, which: int, ghost ts: seq<Tree>) returns (item: Item?)
    requires Siblings(parent, ts)
    modifies parent`child, Heads(ts)`next, Heads(ts)`prev
    ensures 0 <= which < |ts| ==>
              item == ts[which].item && Siblings(parent, Without(ts, which)) && Unattached(item, Without(ts, which))
    ensures !(0 <= which < |ts|) ==> item == null && Siblings(parent, ts)
  {
    if which < 0 {
      return null;
    }
    item := GetArrayItem(parent, which, ts);
    if item != null {
      DetachItemViaPointer(parent, item, ts, which);
    }
  }

  lemma {:induction false} HeadsDifferMore(ts: seq<Tree>, i: nat, t: Tree)
    requires HeadsDiffer(ts) && i <= |ts| && forall j :: 0 <= j < |ts| ==> ts[j].item != t.item
    ensures HeadsDiffer(ts[..i] + [t] + ts[i..])
  {
    var us := ts[..i] + [t] + ts[i..];
    assert forall j :: 0 <= j < |us| ==> us[j] == if j < i then ts[j] else if j == i then t else ts[j - 1];
  }

  /** The pointers between the new item, its neighbours and the parent. */
  method LinkInFront(parent: Item, afterInserted: Item, newItem: Item, ghost ts: seq<Tree>, ghost i: nat, ghost t: Tree)
    requires Siblings(parent, ts) && Unattached(newItem, ts) && t.item == newItem
    requires i < |ts| && afterInserted == ts[i].item
    modifies parent`child, newItem`next, newItem`prev, Heads(ts)`next, Heads(ts)`prev
    ensures var us := ts[..i] + [t] + ts[i..]; parent.child == First(us) && Linked(us)
  {
    ghost var us := ts[..i] + [t] + ts[i..];
    assert forall j :: 0 <= j < |us| ==> us[j] == if j < i then ts[j] else if j == i then t else ts[j - 1];
    newItem.next := afterInserted;
    newItem.prev := afterInserted.prev;
    afterInserted.prev := newItem;
    if afterInserted == parent.child {
      parent.child := newItem;
    } else {
      newItem.prev.next := newItem;
    }
    assert us[i].item.next == us[i + 1].item && (i > 0 ==> us[i - 1].item.next == us[i].item);
  }

  /** The tail of cJSON_InsertItemInArray: in front of the i-th item. */
  method InsertBefore(parent: Item, afterInserted: Item, newItem: Item, ghost ts: seq<Tree>, ghost i: nat,
                      ghost t: Tree)
    requires Siblings(parent, ts) && Unattached(newItem, ts) && t.item == newItem
    requires i < |ts| && afterInserted == ts[i].item
    modifies parent`child, newItem`next, newItem`prev, Heads(ts)`next, Heads(ts)`prev
    ensures Siblings(parent, ts[..i] + [t] + ts[i..])
  {
    HeadsDifferMore(ts, i, t);
    LinkInFront(parent, afterInserted, newItem, ts, i, t);
  }

  /** cJSON_InsertItemInArray: in front of the item at the index, or behind the last one. */
  method InsertItemInArray(parent: Item, which: int, newItem: Item, ghost ts: seq<Tree>, ghost t: Tree)
    requires Siblings(parent, ts) && Unattached(newItem, ts) && t.item == newItem
    modifies parent`child, newItem`next, newItem`prev, Heads(ts)`next, Heads(ts)`prev
    ensures Siblings(parent, if which < 0 then ts else With(ts, which, t))
    ensures which < 0 ==> Unattached(newItem, ts)
  {
    if which < 0 {
      return;
    }
    var afterInserted := GetArrayItem(parent, which, ts);
    if afterInserted == null {
      var _ := AddItemToArray(parent, newItem, ts, t);
      return;
    }
    InsertBefore(parent, afterInserted, newItem, ts, which, t);
  }

  /** The replacement and its neighbours point to each other; the item still points to them. */
  method TakePlace(item: Item, replacement: Item, ghost ts: seq<Tree>, ghost i: nat, ghost t: Tree)
    requires Linked(ts) && HeadsDiffer(ts) && i < |ts| && item == ts[i].item
    requires replacement == t.item && Unattached(replacement, ts)
    modifies Heads(ts)`next, Heads(ts)`prev, replacement`next, replacement`prev
    ensures Linked(ts[i := t]) && HeadsDiffer(ts[i := t])
  {
    replacement.next := item.next;
    replacement.prev := item.prev;
    if replacement.next != null {
      replacement.next.prev := replacement;
    }
    if replacement.prev != null {
      replacement.prev.next := replacement;
    }
  }

  /** cJSON_ReplaceItemViaPointer up to the deletion: the replacement takes the place of the item. */
  method Relink(parent: Item, item: Item, replacement: Item, ghost ts: seq<Tree>, ghost i: nat, ghost t: Tree)
    requires Siblings(parent, ts) && i < |ts| && item == ts[i].item
    requires replacement == t.item && Unattached(replacement, ts)
    modifies parent`child, Heads(ts)`next, Heads(ts)`prev, replacement`next, replacement`prev
    ensures Siblings(parent, ts[i := t]) && Unattached(item, ts[i := t])
  {
    TakePlace(item, replacement, ts, i, t);
    if parent.child == item {
      parent.child := replacement;
    }
    item.next := null;
    item.prev := null;
  }

  lemma {:induction false} SingleOwned(t: Tree)
    requires Distinct(t)
    ensures DistinctAll([t]) && OwnedAll([t]) == Owned(t) && ReachAll([t]) == Reach(t)
  {
    assert forall o :: o in OwnedAll([t]) <==> o in Owned([t][0]);
    assert forall o :: o in ReachAll([t]) <==> o in Reach([t][0]);
  }

  /** cJSON_ReplaceItemViaPointer: the i-th child is replaced and deleted. */
  method ReplaceItemViaPointer(parent: Item, item: Item, replacement: Item, hooks: Allocator,
                               ghost ts: seq<Tree>, ghost i: nat, ghost t: Tree)
    requires Siblings(parent, ts) && i < |ts| && item == ts[i].item && replacement == t.item
    requires replacement != item ==> Unattached(replacement, ts)
    requires Shaped(ts[i]) && Distinct(ts[i]) && Owned(ts[i]) <= hooks.live && hooks !in Reach(ts[i])
    requires Heads(ts) + {replacement, parent} !! ReachAll(ts[i].kids)
    requires parent != item
    modifies parent`child, Heads(ts)`next, Heads(ts)`prev, replacement`next, replacement`prev, hooks
    ensures replacement == item ==> Siblings(parent, ts) && hooks.live == old(hooks.live)
    ensures replacement != item ==> Siblings(parent, ts[i := t]) && hooks.live == old(hooks.live) - Owned(ts[i])
    ensures replacement != item ==> item.next == null && item.prev == null
    ensures hooks.refusals == old(hooks.refusals)
  {
    hide Reach, ReachAll, Owned, OwnedAll, Distinct, DistinctAll, Shaped;
    if replacement == item {
      return;
    }
    SingleOwned(ts[i]);
    assert allocated(Reach(ts[i])) && allocated(ReachAll(ts[i].kids)) && allocated(Heads(ts[i := t]));
    Relink(parent, item, replacement, ts, i, t);
    assert [ts[i]][0] == ts[i];
    hooks.Delete(item, [ts[i]]);
  }

  /** Detaching the i-th child and inserting it at i again restores the list. */
  method DetachAndInsert(parent: Item, i: nat, ghost ts: seq<Tree>)
    requires Siblings(parent, ts) && i < |ts|
    modifies parent`child, Heads(ts)`next, Heads(ts)`prev
    ensures Siblings(parent, ts)
  {
    hide Linked, HeadsDiffer;
    var item := DetachItemFromArray(parent, i, ts);
    assert forall o :: o in Heads(Without(ts, i)) ==> o in Heads(ts);
    InsertItemInArray(parent, i, item, Without(ts, i), ts[i]);
    assert With(Without(ts, i), i, ts[i]) == ts;
  }

  // ---------------------------------------------------------------- a stock of items

  /** The items of a set of subtrees, without what is below them. */
  ghost function Tops(pool: set<Tree>): set<Item> {
    set t | t in pool :: t.item
  }

  ghost function Beneath(pool: set<Tree>): set<object> {
    set t, o | t in pool && o in BelowItem(t) :: o
  }

  /** Everything that the subtrees own. */
  ghost function OwnedBy(pool: set<Tree>): set<object> {
    set t, o | t in pool && o in Owned(t) :: o
  }

  /** The subtrees share nothing, and the array and the allocator are no part of them. */
  ghost predicate Separate(pool: set<Tree>, parent: Item, hooks: Allocator) {
    && (forall t :: t in pool ==> Distinct(t) && parent !in Reach(t) && hooks !in Reach(t))
    && (forall t, u :: t in pool && u in pool && t != u ==> Owned(t) !! Owned(u))
    && Tops(pool) !! Beneath(pool)
  }

  lemma {:induction false} BeneathAll(pool: set<Tree>)
    ensures forall t :: t in pool ==> t.item in Tops(pool) && ReachAll(t.kids) <= Beneath(pool)
  {
    forall t | t in pool ensures ReachAll(t.kids) <= Beneath(pool) {
      assert BelowItem(t) <= Beneath(pool);
    }
  }

  /** The fields of all items agree with the subtrees. */
  ghost predicate Whole(pool: set<Tree>)
    reads Tops(pool)`isReference, Tops(pool)`stringIsConst, Tops(pool)`valuestring, Tops(pool)`key, Tops(pool)`child
    reads Beneath(pool)
  {
    BeneathAll(pool);
    forall t :: t in pool ==> Shaped(t)
  }

  /** The items that are not in the list point nowhere. */
  ghost predicate Loose(items: set<Item>, ts: seq<Tree>)
    reads items`next, items`prev
  {
    Heads(ts) <= items && forall item <- items :: item in Heads(ts) || (item.next == null && item.prev == null)
  }

  /** Subtrees at hand, in the array or out of it: none is freed, and those outside point nowhere. */
  ghost predicate Stock(pool: set<Tree>, parent: Item, hooks: Allocator, ts: seq<Tree>)
    reads Tops(pool), Beneath(pool), hooks
  {
    && Whole(pool) && Separate(pool, parent, hooks) && OwnedBy(pool) <= hooks.live
    && (forall t :: t in ts ==> t in pool) && Loose(Tops(pool), ts)
  }

  lemma {:induction false} StockApart(pool: set<Tree>, parent: Item, hooks: Allocator)
    requires Separate(pool, parent, hooks)
    ensures parent !in Tops(pool) + Beneath(pool) && hooks !in Tops(pool) + Beneath(pool)
    ensures Tops(pool) !! Beneath(pool)
    ensures forall t :: t in pool ==> t.item in Tops(pool) && ReachAll(t.kids) <= Beneath(pool)
    ensures forall t, u :: t in pool && u in pool && t.item == u.item ==> t == u
  {
    forall t | t in pool ensures t.item in Reach(t) && BelowItem(t) <= Reach(t) && t.item in Owned(t) {
    }
    BeneathAll(pool);
  }

  // ---------------------------------------------------------------- any sequence of edits

  /** One call on an array. */
  datatype Edit =
    | Append(t: Tree)
    | InsertAt(which: int, t: Tree)
    | DetachAt(which: int)
    | ReplaceAt(which: int, t: Tree)

  /** The matching operation on the sequence of children. */
  function Edited(ts: seq<Tree>, e: Edit): seq<Tree> {
    match e
    case Append(t) => ts + [t]
    case InsertAt(which, t) => if which < 0 then ts else With(ts, which, t)
    case DetachAt(which) => if 0 <= which < |ts| then Without(ts, which) else ts
    case ReplaceAt(which, t) => if 0 <= which < |ts| then ts[which := t] else ts
  }

  function AllEdited(ts: seq<Tree>, es: seq<Edit>): seq<Tree>
    decreases |es|
  {
    if es == [] then ts else AllEdited(Edited(ts, es[0]), es[1..])
  }

  /** The subtree that a call deletes: what is replaced, by another one. */
  ghost function Deleted(ts: seq<Tree>, e: Edit): set<Tree> {
    if e.ReplaceAt? && 0 <= e.which < |ts| && ts[e.which] != e.t then {ts[e.which]} else {}
  }

  ghost function AllDeleted(ts: seq<Tree>, es: seq<Edit>): set<Tree>
    decreases |es|
  {
    if es == [] then {} else Deleted(ts, es[0]) + AllDeleted(Edited(ts, es[0]), es[1..])
  }

  /**
   A call that takes an item takes one of the stock that is not in the list at that time, detached ones included, or
   replaces an item by itself.
   */
  ghost predicate Takes(e: Edit, ts: seq<Tree>, pool: set<Tree>) {
    e.DetachAt? || (e.t in pool && (e.t !in ts || (e.ReplaceAt? && 0 <= e.which < |ts| && ts[e.which] == e.t)))
  }

  /** What was deleted is never used again. */
  ghost predicate Welcome(es: seq<Edit>, ts: seq<Tree>, pool: set<Tree>)
    decreases |es|
  {
    es == [] || (Takes(es[0], ts, pool) && Welcome(es[1..], Edited(ts, es[0]), pool - Deleted(ts, es[0])))
  }

  lemma {:induction false} EditedHeads(ts: seq<Tree>, e: Edit)
    ensures Heads(Edited(ts, e)) <= Heads(ts) + (if e.DetachAt? then {} else {e.t.item})
    ensures !e.DetachAt? && !e.ReplaceAt? ==> Heads(ts) <= Heads(Edited(ts, e))
    ensures e.Append? || (e.InsertAt? && e.which >= 0) ==> e.t.item in Heads(Edited(ts, e))
    ensures (e.DetachAt? || e.ReplaceAt?) && 0 <= e.which < |ts| ==>
              Heads(ts) <= Heads(Edited(ts, e)) + {ts[e.which].item}
  {
    var us := Edited(ts, e);
    forall i | 0 <= i < |ts| && !((e.DetachAt? || e.ReplaceAt?) && i == e.which) ensures ts[i].item in Heads(us) {
      var j := if e.DetachAt? && 0 <= e.which < i then i - 1
               else if e.InsertAt? && 0 <= e.which <= i then i + 1 else i;
      assert us[j] == ts[i];
    }
    if e.Append? || (e.InsertAt? && e.which >= 0) {
      assert us[if e.InsertAt? && e.which < |ts| then e.which else |ts|] == e.t;
    }
  }

  /** The same for the subtrees: each edit changes the list by its own one. */
  lemma {:induction false} EditedTrees(ts: seq<Tree>, e: Edit)
    ensures forall t :: t in Edited(ts, e) ==> t in ts || (!e.DetachAt? && t == e.t)
    ensures forall t :: t in ts ==> t in Edited(ts, e) || ((e.DetachAt? || e.ReplaceAt?) && 0 <= e.which < |ts|
                                                          && t == ts[e.which])
    ensures e.Append? || (e.InsertAt? && e.which >= 0) || (e.ReplaceAt? && 0 <= e.which < |ts|) ==> e.t in Edited(ts, e)
  {
    var us := Edited(ts, e);
    forall t | t in ts && !((e.DetachAt? || e.ReplaceAt?) && 0 <= e.which < |ts| && t == ts[e.which]) ensures t in us {
      var i :| 0 <= i < |ts| && ts[i] == t;
      var j := if e.DetachAt? && 0 <= e.which < i then i - 1
               else if e.InsertAt? && 0 <= e.which <= i then i + 1 else i;
      assert us[j] == ts[i];
    }
    if e.Append? || (e.InsertAt? && e.which >= 0) {
      assert us[if e.InsertAt? && e.which < |ts| then e.which else |ts|] == e.t;
    } else if e.ReplaceAt? && 0 <= e.which < |ts| {
      assert us[e.which] == e.t;
    }
  }

  /** The subtree of an item can be deleted once the item is out of the list. */
  ghost predicate Deletable(parent: Item, t: Tree, others: set<Item>, hooks: Allocator)
    reads t.item, ReachAll(t.kids), hooks
  {
    && Shaped(t) && Distinct(t) && Owned(t) <= hooks.live && hooks !in Reach(t)
    && others + {parent} !! ReachAll(t.kids) && parent != t.item
  }

  lemma {:induction false} CanDelete(parent: Item, t: Tree, others: set<Item>, hooks: Allocator)
    requires Deletable(parent, t, others, hooks)
    ensures Shaped(t) && Distinct(t) && Owned(t) <= hooks.live && hooks !in Reach(t)
    ensures others + {parent} !! ReachAll(t.kids) && parent != t.item
  {
  }

  lemma {:induction false} OwnedByOne(t: Tree)
    ensures OwnedBy({t}) == Owned(t)
  {
    assert t in {t};
  }

  lemma {:induction false} NothingOwnedBy()
    ensures OwnedBy({}) == {}
  {
  }

  /** cJSON_ReplaceItemInArray. */
  method ReplaceItemInArray(parent: Item, which: int, newItem: Item, hooks: Allocator, ghost ts: seq<Tree>,
                            ghost t: Tree)
    requires Siblings(parent, ts) && newItem == t.item
    requires 0 <= which < |ts| ==>
               && Deletable(parent, ts[which], Heads(ts) + {newItem}, hooks)
               && if newItem == ts[which].item then t == ts[which] else Unattached(newItem, ts)
    modifies parent`child, Heads(ts)`next, Heads(ts)`prev, newItem`next, newItem`prev, hooks
    ensures Siblings(parent, Edited(ts, ReplaceAt(which, t)))
    ensures hooks.live == old(hooks.live) - OwnedBy(Deleted(ts, ReplaceAt(which, t)))
    ensures hooks.refusals == old(hooks.refusals)
    ensures forall u :: u in Deleted(ts, ReplaceAt(which, t)) ==> u.item.next == null && u.item.prev == null
    ensures !(0 <= which < |ts|) ==> newItem.next == old(newItem.next) && newItem.prev == old(newItem.prev)
  {
    hide Deletable, OwnedBy, Reach, ReachAll, Owned, OwnedAll, Distinct, Shaped, Linked, HeadsDiffer;
    NothingOwnedBy();
    if which < 0 {
      return;
    }
    if which < |ts| {
      OwnedByOne(ts[which]);
      CanDelete(parent, ts[which], Heads(ts) + {newItem}, hooks);
      assert allocated(Reach(ts[which])) && allocated(ReachAll(ts[which].kids));
      assert ts[which := ts[which]] == ts;
    }
    var item := GetArrayItem(parent, which, ts);
    if item != null {
      ReplaceItemViaPointer(parent, item, newItem, hooks, ts, which, t);
    }
  }

  /** The pointers of one call, and the deletion of what is replaced. */
  method CallOnArray(parent: Item, e: Edit, hooks: Allocator, ghost ts: seq<Tree>, ghost items: set<Item>)
    requires Siblings(parent, ts) && Loose(items, ts) && (!e.DetachAt? ==> e.t.item in items)
    requires !e.DetachAt? && e.t.item in Heads(ts) ==> e.ReplaceAt? && 0 <= e.which < |ts| && ts[e.which] == e.t
    requires e.ReplaceAt? && 0 <= e.which < |ts| ==>
               Deletable(parent, ts[e.which], Heads(ts) + {e.t.item}, hooks)
    modifies parent`child, items`next, items`prev, hooks
    ensures Siblings(parent, Edited(ts, e)) && Loose(items, Edited(ts, e))
    ensures hooks.live == old(hooks.live) - OwnedBy(Deleted(ts, e)) && hooks.refusals == old(hooks.refusals)
  {
    hide Deletable, OwnedBy, Linked, HeadsDiffer, With, Without;
    EditedHeads(ts, e);
    NothingOwnedBy();
    match e
    case Append(t) =>
      var _ := AddItemToArray(parent, t.item, ts, t);
    case InsertAt(which, t) =>
      InsertItemInArray(parent, which, t.item, ts, t);
    case DetachAt(which) =>
      var _ := DetachItemFromArray(parent, which, ts);
    case ReplaceAt(which, t) =>
      ReplaceItemInArray(parent, which, t.item, hooks, ts, t);
  }

  // ---------------------------------------------------------------- the stock, call by call

  /** Which items of the stock are in the list. */
  lemma {:induction false} StockHeads(pool: set<Tree>, parent: Item, hooks: Allocator, ts: seq<Tree>)
    requires Separate(pool, parent, hooks) && forall t :: t in ts ==> t in pool
    ensures Heads(ts) <= Tops(pool) && forall t :: t in pool && t !in ts ==> t.item !in Heads(ts)
  {
    hide Separate, Tops;
    StockApart(pool, parent, hooks);
    forall o | o in Heads(ts) ensures o in Tops(pool) && forall t :: t in pool && t.item == o ==> t in ts {
      var i :| 0 <= i < |ts| && ts[i].item == o;
      assert ts[i] in ts;
    }
  }

  /** A subtree of the stock can be deleted. */
  lemma {:induction false} StockTree(pool: set<Tree>, parent: Item, hooks: Allocator, others: set<Item>, t: Tree)
    requires Whole(pool) && Separate(pool, parent, hooks) && OwnedBy(pool) <= hooks.live
    requires t in pool && others <= Tops(pool)
    ensures Deletable(parent, t, others, hooks)
  {
    hide Shaped, Distinct, Owned;
    BeneathAll(pool);
    forall o | o in Owned(t) ensures o in OwnedBy(pool) {
    }
    assert t.item in Reach(t) && ReachAll(t.kids) <= Reach(t);
  }

  lemma {:induction false} OwnedLeft(pool: set<Tree>, gone: set<Tree>, live: set<object>)
    requires forall t, u :: t in pool && u in pool && t != u ==> Owned(t) !! Owned(u)
    requires OwnedBy(pool) <= live && gone <= pool
    ensures OwnedBy(pool - gone) <= live - OwnedBy(gone)
  {
    hide Owned;
    forall o | o in OwnedBy(pool - gone) ensures o in live && o !in OwnedBy(gone) {
      var t :| t in pool - gone && o in Owned(t);
      assert o in OwnedBy(pool);
      forall u | u in gone ensures o !in Owned(u) {
        assert Owned(t) !! Owned(u);
      }
    }
  }

  /** The stock that is left is as good as before. */
  lemma {:induction false} StockLeft(pool: set<Tree>, gone: set<Tree>, parent: Item, hooks: Allocator,
                                     live: set<object>)
    requires Separate(pool, parent, hooks) && OwnedBy(pool) <= live && gone <= pool
    ensures Separate(pool - gone, parent, hooks) && OwnedBy(pool - gone) <= live - OwnedBy(gone)
  {
    var left := pool - gone;
    assert Tops(left) <= Tops(pool) && Beneath(left) <= Beneath(pool);
    OwnedLeft(pool, gone, live);
  }

  lemma {:induction false} WholeLeft(pool: set<Tree>, gone: set<Tree>)
    requires Whole(pool)
    ensures Whole(pool - gone)
  {
    hide Shaped;
  }

  lemma {:induction false} LooseLeft(pool: set<Tree>, gone: set<Tree>, ts: seq<Tree>)
    requires Loose(Tops(pool), ts) && forall t :: t in ts ==> t in pool - gone
    ensures Loose(Tops(pool - gone), ts)
  {
    forall o | o in Heads(ts) ensures o in Tops(pool - gone) {
      var i :| 0 <= i < |ts| && ts[i].item == o;
      assert ts[i] in ts;
    }
  }

  lemma {:induction false} DeletedFromStock(ts: seq<Tree>, e: Edit, pool: set<Tree>)
    requires Takes(e, ts, pool) && HeadsDiffer(ts) && (forall t :: t in ts ==> t in pool)
    ensures Deleted(ts, e) <= pool && forall t :: t in Edited(ts, e) ==> t in pool - Deleted(ts, e)
  {
    var us := Edited(ts, e);
    EditedTrees(ts, e);
    if e.ReplaceAt? && 0 <= e.which < |ts| {
      assert ts[e.which] in ts;
      forall t | t in us ensures t in pool - Deleted(ts, e) {
        var i :| 0 <= i < |us| && us[i] == t;
        assert i != e.which ==> ts[i] in ts && ts[i].item != ts[e.which].item;
      }
    }
  }

  /** What one call asks of the stock. */
  lemma {:induction false} StockServes(parent: Item, e: Edit, hooks: Allocator, ts: seq<Tree>, pool: set<Tree>)
    requires Siblings(parent, ts) && Stock(pool, parent, hooks, ts) && Takes(e, ts, pool)
    ensures !e.DetachAt? ==> e.t.item in Tops(pool)
    ensures !e.DetachAt? && e.t.item in Heads(ts) ==> e.ReplaceAt? && 0 <= e.which < |ts| && ts[e.which] == e.t
    ensures e.ReplaceAt? && 0 <= e.which < |ts| ==> Deletable(parent, ts[e.which], Heads(ts) + {e.t.item}, hooks)
  {
    hide Separate, Whole, OwnedBy, Deletable, Linked, HeadsDiffer;
    StockApart(pool, parent, hooks);
    StockHeads(pool, parent, hooks, ts);
    if e.ReplaceAt? && 0 <= e.which < |ts| {
      assert ts[e.which] in ts;
      StockTree(pool, parent, hooks, Heads(ts) + {e.t.item}, ts[e.which]);
    }
  }

  /** One call. */
  method ApplyEdit(parent: Item, e: Edit, hooks: Allocator, ghost ts: seq<Tree>, ghost pool: set<Tree>)
    requires Siblings(parent, ts) && Stock(pool, parent, hooks, ts) && Takes(e, ts, pool)
    modifies parent`child, Tops(pool)`next, Tops(pool)`prev, hooks
    ensures Siblings(parent, Edited(ts, e)) && Stock(pool - Deleted(ts, e), parent, hooks, Edited(ts, e))
    ensures hooks.live == old(hooks.live) - OwnedBy(Deleted(ts, e)) && hooks.refusals == old(hooks.refusals)
  {
    hide Whole, Separate, OwnedBy, Tops, Beneath, Deleted, Edited, Takes, Deletable, Loose, Linked;
    StockApart(pool, parent, hooks);
    StockServes(parent, e, hooks, ts, pool);
    DeletedFromStock(ts, e, pool);
    assert allocated(Tops(pool)) && allocated(Beneath(pool)) && Tops(pool) !! Beneath(pool);
    CallOnArray(parent, e, hooks, ts, Tops(pool));
    WholeLeft(pool, Deleted(ts, e));
    StockLeft(pool, Deleted(ts, e), parent, hooks, old(hooks.live));
    LooseLeft(pool, Deleted(ts, e), Edited(ts, e));
  }

  lemma {:induction false} AllDeletedUnfolds(ts: seq<Tree>, es: seq<Edit>, pool: set<Tree>, live: set<object>)
    requires es != []
    ensures AllDeleted(ts, es) == Deleted(ts, es[0]) + AllDeleted(Edited(ts, es[0]), es[1..])
    ensures pool - Deleted(ts, es[0]) - AllDeleted(Edited(ts, es[0]), es[1..]) == pool - AllDeleted(ts, es)
    ensures live - OwnedBy(Deleted(ts, es[0])) - OwnedBy(AllDeleted(Edited(ts, es[0]), es[1..]))
            == live - OwnedBy(AllDeleted(ts, es))
  {
    hide Owned, Deleted, Edited;
  }

  lemma {:induction false} TopsLeft(pool: set<Tree>, gone: set<Tree>)
    ensures Tops(pool - gone) <= Tops(pool)
  {
  }

  lemma {:induction false} NothingMore(ts: seq<Tree>, es: seq<Edit>, pool: set<Tree>, live: set<object>)
    requires es == []
    ensures AllEdited(ts, es) == ts && pool - AllDeleted(ts, es) == pool && live - OwnedBy(AllDeleted(ts, es)) == live
  {
  }

  /**
   Any sequence of add, insert, detach and replace calls keeps the list in order and realises the sequence operations;
   what is replaced is freed, once, and nothing else is.
   */
  method ApplyEdits(parent: Item, es: seq<Edit>, hooks: Allocator, ghost ts: seq<Tree>, ghost pool: set<Tree>)
    requires Siblings(parent, ts) && Stock(pool, parent, hooks, ts) && Welcome(es, ts, pool)
    modifies parent`child, Tops(pool)`next, Tops(pool)`prev, hooks
    ensures Siblings(parent, AllEdited(ts, es))
    ensures Stock(pool - AllDeleted(ts, es), parent, hooks, AllEdited(ts, es))
    ensures hooks.live == old(hooks.live) - OwnedBy(AllDeleted(ts, es)) && hooks.refusals == old(hooks.refusals)
  {
    hide Stock, Siblings, Edited, Deleted, OwnedBy, Takes, Tops, Beneath;
    var i := 0;
    ghost var now, stock := ts, pool;
    assert es[0..] == es;
    while i < |es|
      invariant 0 <= i <= |es|
      invariant Siblings(parent, now) && Stock(stock, parent, hooks, now) && Welcome(es[i..], now, stock)
      invariant AllEdited(ts, es) == AllEdited(now, es[i..])
      invariant Tops(stock) <= Tops(pool)
      invariant pool - AllDeleted(ts, es) == stock - AllDeleted(now, es[i..])
      invariant old(hooks.live) - OwnedBy(AllDeleted(ts, es)) == hooks.live - OwnedBy(AllDeleted(now, es[i..]))
      invariant hooks.refusals == old(hooks.refusals)
    {
      assert es[i..][0] == es[i] && es[i..][1..] == es[i + 1..];
      AllDeletedUnfolds(now, es[i..], stock, hooks.live);
      TopsLeft(stock, Deleted(now, es[i]));
      ApplyEdit(parent, es[i], hooks, now, stock);
      now, stock := Edited(now, es[i]), stock - Deleted(now, es[i]);
      i := i + 1;
    }
    NothingMore(now, es[i..], stock, hooks.live);
  }
}
