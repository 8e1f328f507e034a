/**
 The items of cJSON on the heap, the allocator behind the hooks, and cJSON_Delete.
 `Tree` is the shape of an item and everything below it, `Means` the JSON tree it stands for.
 */
module Heap {
  import opened Prelude
  import opened Json

  datatype Kind =
    | InvalidKind | NullKind | FalseKind | TrueKind | NumberKind | StringKind | RawKind | ArrayKind | ObjectKind

  /** struct cJSON. The type word is split into its kind and its two flags. */
  class Item {
    var next: Item?
    var prev: Item?
    var child: Item?
    var kind: Kind
    var isReference: bool
    var stringIsConst: bool
    var valuestring: array?<char>
    var number: string
    var key: array?<char>

    /** cJSON_New_Item clears the memory. */
    constructor ()
      ensures next == null && prev == null && child == null && valuestring == null && key == null
      ensures kind == InvalidKind && !isReference && !stringIsConst && number == ""
    {
      next, prev, child, valuestring, key := null, null, null, null, null;
      kind, isReference, stringIsConst, number := InvalidKind, false, false, "";
    }
  }

  // ---------------------------------------------------------------- shapes

  /** An item with the buffers it points to and the shapes of its children, whoever owns them. */
  datatype Tree = Tree(item: Item, isReference: bool, stringIsConst: bool, value: array?<char>, key: array?<char>,
                       kids: seq<Tree>)

  ghost function Buffer(a: array?<char>): set<object> {
    if a == null then {} else {a}
  }

  /** Everything that can be reached below and including an item. */
  ghost function Reach(t: Tree): set<object> {
    {t.item} + Buffer(t.value) + Buffer(t.key) + ReachAll(t.kids)
  }

  ghost function ReachAll(ts: seq<Tree>): set<object> {
    set i, o | 0 <= i < |ts| && o in Reach(ts[i]) :: o
  }

  /** What cJSON_Delete must free below an item: nothing of a reference. */
  ghost function Below(t: Tree): set<object>
    decreases t, 0
  {
    if t.isReference then {} else Buffer(t.value) + OwnedAll(t.kids)
  }

  /** What cJSON_Delete must free for an item: a constant key is not its own. */
  ghost function Owned(t: Tree): set<object>
    decreases t, 1
  {
    {t.item} + Below(t) + (if t.stringIsConst then {} else Buffer(t.key))
  }

  ghost function OwnedAll(ts: seq<Tree>): set<object>
    decreases ts, 2
  {
    set i, o | 0 <= i < |ts| && o in Owned(ts[i]) :: o
  }

  /** Nothing is owned twice. */
  ghost predicate Distinct(t: Tree) {
    && t.item !in Below(t)
    && (t.key != null && !t.stringIsConst ==> t.key !in Below(t))
    && (!t.isReference ==> DistinctAll(t.kids) && (t.value != null ==> t.value !in OwnedAll(t.kids)))
  }

  ghost predicate DistinctAll(ts: seq<Tree>) {
    && (forall i :: 0 <= i < |ts| ==> Distinct(ts[i]))
    && (forall i, j :: 0 <= i < j < |ts| ==> Owned(ts[i]) !! Owned(ts[j]))
  }

  function First(ts: seq<Tree>): Item? {
    if ts == [] then null else ts[0].item
  }

  ghost function Heads(ts: seq<Tree>): set<Item> {
    set i | 0 <= i < |ts| :: ts[i].item
  }

  lemma {:induction false} ItemsReached(ts: seq<Tree>)
    ensures forall i :: 0 <= i < |ts| ==> ts[i].item in ReachAll(ts)
    ensures forall o :: o in Heads(ts) ==> o in ReachAll(ts)
  {
    forall i | 0 <= i < |ts| ensures ts[i].item in ReachAll(ts) {
      assert ts[i].item in Reach(ts[i]);
    }
  }

  lemma {:induction false} KidsReached(ts: seq<Tree>)
    ensures forall i :: 0 <= i < |ts| ==> Reach(ts[i]) <= ReachAll(ts)
    ensures forall i :: 0 <= i < |ts| ==> Buffer(ts[i].key) <= ReachAll(ts) && Buffer(ts[i].value) <= ReachAll(ts)
    ensures forall i :: 0 <= i < |ts| ==> ReachAll(ts[i].kids) <= ReachAll(ts)
  {
    forall i, o | 0 <= i < |ts| && o in Reach(ts[i]) ensures o in ReachAll(ts) {
    }
    forall i | 0 <= i < |ts|
      ensures Buffer(ts[i].key) <= Reach(ts[i]) && Buffer(ts[i].value) <= Reach(ts[i])
              && ReachAll(ts[i].kids) <= Reach(ts[i])
    {
    }
  }

  lemma {:induction false} OwnedGrows(ts: seq<Tree>, i: nat)
    requires i < |ts|
    ensures OwnedAll(ts[..i + 1]) == OwnedAll(ts[..i]) + Owned(ts[i])
  {
    var a, b := OwnedAll(ts[..i + 1]), OwnedAll(ts[..i]) + Owned(ts[i]);
    forall o | o in a ensures o in b {
      var j :| 0 <= j < i + 1 && o in Owned(ts[..i + 1][j]);
      assert j < i ==> o in Owned(ts[..i][j]);
    }
    forall o | o in b ensures o in a {
      if o in Owned(ts[i]) {
        assert o in Owned(ts[..i + 1][i]);
      } else {
        var j :| 0 <= j < i && o in Owned(ts[..i][j]);
        assert o in Owned(ts[..i + 1][j]);
      }
    }
  }

  lemma {:induction false} NothingOwned(ts: seq<Tree>)
    ensures OwnedAll(ts[..0]) == {} && OwnedAll([]) == {}
  {
  }

  /** Deleting one more item of a chain. */
  lemma {:induction false} DeleteStep(ts: seq<Tree>, i: nat, live: set<object>, other: object)
    requires i < |ts| && DistinctAll(ts) && OwnedAll(ts) <= live && other !in ReachAll(ts)
    ensures Distinct(ts[i]) && other !in Reach(ts[i])
    ensures Owned(ts[i]) <= live - OwnedAll(ts[..i])
    ensures live - OwnedAll(ts[..i]) - Owned(ts[i]) == live - OwnedAll(ts[..i + 1])
  {
    OwnedGrows(ts, i);
    forall o | o in OwnedAll(ts[..i]) ensures o !in Owned(ts[i]) {
      var j :| 0 <= j < i && o in Owned(ts[..i][j]);
      assert Owned(ts[j]) !! Owned(ts[i]);
    }
  }

  /** The items are chained by `next` and `prev`, and the chain ends in NULL at both ends. */
  ghost predicate Linked(ts: seq<Tree>)
    reads Heads(ts)`next, Heads(ts)`prev
  {
    && (forall i {:trigger ts[i].item.next} :: 0 <= i < |ts| ==>
          ts[i].item.next == if i + 1 < |ts| then ts[i + 1].item else null)
    && (forall i {:trigger ts[i].item.prev} :: 0 <= i < |ts| ==>
          ts[i].item.prev == if i > 0 then ts[i - 1].item else null)
  }

  /** The fields of the items agree with the shape. */
  ghost predicate Shaped(t: Tree)
    reads t.item`isReference, t.item`stringIsConst, t.item`valuestring, t.item`key, t.item`child, ReachAll(t.kids)
    decreases t
  {
    ItemsReached(t.kids);
    KidsReached(t.kids);
    && t.item.isReference == t.isReference && t.item.stringIsConst == t.stringIsConst
    && t.item.valuestring == t.value && t.item.key == t.key && t.item.child == First(t.kids)
    && Linked(t.kids)
    && forall i :: 0 <= i < |t.kids| ==> Shaped(t.kids[i])
  }

  // ---------------------------------------------------------------- values

  /** The buffer holds the C string `s`. */
  ghost predicate HoldsText(a: array?<char>, s: string)
    reads Buffer(a)
  {
    a != null && |s| < a.Length && a[..|s|] == s && a[|s|] == '\0' && NulFree(s)
  }

  /** The item stands for the JSON tree. */
  ghost predicate Means(t: Tree, v: Json)
    reads t.item`kind, t.item`number, Buffer(t.value), ReachAll(t.kids)
    decreases t
  {
    ItemsReached(t.kids);
    KidsReached(t.kids);
    match v
    case Null => t.item.kind == NullKind && t.kids == []
    case False => t.item.kind == FalseKind && t.kids == []
    case True => t.item.kind == TrueKind && t.kids == []
    case Number(digits) => t.item.kind == NumberKind && t.item.number == digits && t.kids == []
    case String(s) => t.item.kind == StringKind && HoldsText(t.value, s) && t.kids == []
    case Raw(s) => t.item.kind == RawKind && HoldsText(t.value, s) && t.kids == []
    case Array(items) =>
      && t.item.kind == ArrayKind && |t.kids| == |items|
      && forall i :: 0 <= i < |items| ==> Means(t.kids[i], items[i])
    case Object(members) =>
      && t.item.kind == ObjectKind && |t.kids| == |members|
      && forall i :: 0 <= i < |members| ==>
           HoldsText(t.kids[i].key, members[i].key) && Means(t.kids[i], members[i].value)
  }

  // ---------------------------------------------------------------- chains under construction

  /** No flags anywhere: everything that is reached is owned. */
  ghost predicate Plain(t: Tree) {
    !t.isReference && !t.stringIsConst && PlainAll(t.kids)
  }

  ghost predicate PlainAll(ts: seq<Tree>) {
    forall i :: 0 <= i < |ts| ==> Plain(ts[i])
  }

  lemma {:induction false} PlainOwns(t: Tree)
    requires Plain(t)
    ensures Owned(t) == Reach(t)
  {
    PlainAllOwns(t.kids);
  }

  lemma {:induction false} PlainAllOwns(ts: seq<Tree>)
    requires PlainAll(ts)
    ensures OwnedAll(ts) == ReachAll(ts)
  {
    forall i | 0 <= i < |ts| ensures Owned(ts[i]) == Reach(ts[i]) {
      PlainOwns(ts[i]);
    }
    forall o ensures o in OwnedAll(ts) <==> o in ReachAll(ts) {
      if o in OwnedAll(ts) {
        var i :| 0 <= i < |ts| && o in Owned(ts[i]);
        assert o in Reach(ts[i]);
      }
      if o in ReachAll(ts) {
        var i :| 0 <= i < |ts| && o in Reach(ts[i]);
        assert o in Owned(ts[i]);
      }
    }
  }

  lemma {:induction false} ReachGrows(ts: seq<Tree>, t: Tree)
    ensures ReachAll(ts + [t]) == ReachAll(ts) + Reach(t)
  {
    var us := ts + [t];
    var a, b := ReachAll(us), ReachAll(ts) + Reach(t);
    forall o | o in a ensures o in b {
      var i :| 0 <= i < |us| && o in Reach(us[i]);
      assert us[i] == if i < |ts| then ts[i] else t;
    }
    forall o | o in b ensures o in a {
      if o in ReachAll(ts) {
        var i :| 0 <= i < |ts| && o in Reach(ts[i]);
        assert o in Reach(us[i]);
      } else {
        assert o in Reach(us[|ts|]);
      }
    }
  }

  /** A chain grows by a subtree that shares nothing with it. */
  lemma {:induction false} ChainGrows(ts: seq<Tree>, t: Tree)
    requires DistinctAll(ts) && PlainAll(ts) && Plain(t) && Distinct(t) && Reach(t) !! ReachAll(ts)
    ensures DistinctAll(ts + [t]) && PlainAll(ts + [t])
    ensures ReachAll(ts + [t]) == ReachAll(ts) + Reach(t) && OwnedAll(ts + [t]) == ReachAll(ts + [t])
  {
    ReachGrows(ts, t);
    PlainOwns(t);
    PlainAllOwns(ts + [t]);
    forall i | 0 <= i < |ts| ensures Owned(ts[i]) !! Owned(t) {
      PlainOwns(ts[i]);
      KidsReached(ts);
    }
  }

  ghost function BelowItem(t: Tree): set<object> {
    Buffer(t.value) + Buffer(t.key) + ReachAll(t.kids)
  }

  /** What is reached from a chain but is not one of its own items. */
  ghost function Inside(ts: seq<Tree>): set<object> {
    set i, o | 0 <= i < |ts| && o in BelowItem(ts[i]) :: o
  }

  lemma {:induction false} InsideReached(ts: seq<Tree>)
    ensures Inside(ts) <= ReachAll(ts)
    ensures forall i :: 0 <= i < |ts| ==> Buffer(ts[i].value) <= Inside(ts) && ReachAll(ts[i].kids) <= Inside(ts)
    ensures forall i :: 0 <= i < |ts| ==> Buffer(ts[i].key) <= Inside(ts)
  {
    hide ReachAll;
    forall o | o in Inside(ts) ensures o in ReachAll(ts) {
      var i :| 0 <= i < |ts| && o in BelowItem(ts[i]);
      KidsReached(ts);
      assert o in Reach(ts[i]);
    }
    forall i | 0 <= i < |ts|
      ensures Buffer(ts[i].value) <= Inside(ts) && ReachAll(ts[i].kids) <= Inside(ts) && Buffer(ts[i].key) <= Inside(ts)
    {
      assert forall o :: o in BelowItem(ts[i]) ==> o in Inside(ts);
    }
  }

  /** The items of a chain, apart from their links, are the subtrees and stand for the values. */
  ghost predicate Grown(ts: seq<Tree>, vs: seq<Json>)
    reads Heads(ts)`isReference, Heads(ts)`stringIsConst, Heads(ts)`valuestring, Heads(ts)`key, Heads(ts)`child
    reads Heads(ts)`kind, Heads(ts)`number, Inside(ts)
  {
    InsideReached(ts);
    |ts| == |vs| && forall i :: 0 <= i < |ts| ==> Shaped(ts[i]) && Means(ts[i], vs[i])
  }

  /** The items of a chain are not inside it. */
  lemma {:induction false} HeadsOutside(ts: seq<Tree>, i: nat)
    requires i < |ts| && DistinctAll(ts) && PlainAll(ts)
    ensures ts[i].item !in Inside(ts)
  {
    forall j | 0 <= j < |ts| ensures ts[i].item !in BelowItem(ts[j]) {
      PlainOwns(ts[j]);
      PlainAllOwns(ts[j].kids);
      assert ts[i].item in Owned(ts[i]);
      if i != j {
        assert Owned(ts[i]) !! Owned(ts[j]);
      }
    }
  }

  lemma {:induction false} HeadsDiffer(ts: seq<Tree>)
    requires DistinctAll(ts)
    ensures forall i, j :: 0 <= i < j < |ts| ==> ts[i].item != ts[j].item
  {
    forall i, j | 0 <= i < j < |ts| ensures ts[i].item != ts[j].item {
      assert ts[i].item in Owned(ts[i]) && ts[j].item in Owned(ts[j]);
    }
  }

  /** Links depend on the items only, not on what is below them. */
  lemma {:induction false} LinkedItems(ts: seq<Tree>, us: seq<Tree>)
    requires Linked(ts) && |ts| == |us| && forall i :: 0 <= i < |ts| ==> ts[i].item == us[i].item
    ensures Linked(us)
  {
    forall i | 0 <= i < |us|
      ensures us[i].item.next == (if i + 1 < |us| then us[i + 1].item else null)
      ensures us[i].item.prev == (if i > 0 then us[i - 1].item else null)
    {
      assert us[i].item == ts[i].item;
      assert ts[i].item.next == (if i + 1 < |ts| then ts[i + 1].item else null);
      assert ts[i].item.prev == (if i > 0 then ts[i - 1].item else null);
      assert i > 0 ==> us[i - 1].item == ts[i - 1].item;
      assert i + 1 < |us| ==> us[i + 1].item == ts[i + 1].item;
    }
  }

  /** A chain built so far, standing for the values read so far. */
  ghost predicate Row(ts: seq<Tree>, vs: seq<Json>)
    reads ReachAll(ts)
  {
    ItemsReached(ts);
    InsideReached(ts);
    Linked(ts) && Grown(ts, vs) && DistinctAll(ts) && PlainAll(ts)
  }

  ghost function Last(ts: seq<Tree>): set<Item> {
    if ts == [] then {} else {ts[|ts| - 1].item}
  }

  /** A new item without children. */
  function Leaf(item: Item): Tree
    reads item`key
  {
    Tree(item, false, false, null, item.key, [])
  }

  /** A C caller sees the text that the buffer holds. */
  lemma {:induction false} HeldString(a: array<char>, s: string)
    requires HoldsText(a, s)
    ensures CString(a[..]) == s
  {
    assert a[..][..|s|] == a[..|s|];
    CStringIs(a[..], s);
  }

  // ---------------------------------------------------------------- items that stand for values

  /** The item has the shape of the tree and stands for the value. */
  ghost predicate Stands(item: Item?, t: Tree, v: Json)
    reads Reach(t)
  {
    item == t.item && Shaped(t) && Means(t, v)
  }

  /** A standing item: its children are a chain. */
  lemma {:induction false} StandsMeans(item: Item?, t: Tree, v: Json)
    requires Stands(item, t, v)
    ensures item == t.item && item.child == (if t.kids == [] then null else t.kids[0].item)
    ensures v.Array? ==> |t.kids| == |v.items|
    ensures v.Object? ==> |t.kids| == |v.members|
  {
  }

  /** The i-th child of a container. */
  function KidValue(v: Json, i: nat): Json {
    if v.Array? && i < |v.items| then v.items[i]
    else if v.Object? && i < |v.members| then v.members[i].value
    else Null
  }

  /** The children of an item stand for the children of its value. */
  lemma {:induction false} ChildStands(t: Tree, v: Json, i: nat)
    requires Stands(t.item, t, v) && i < |t.kids|
    ensures v.Array? || v.Object?
    ensures Stands(t.kids[i].item, t.kids[i], KidValue(v, i)) && t.kids[i].item.kind != InvalidKind
    ensures v.Object? ==> HoldsText(t.kids[i].key, v.members[i].key) && t.kids[i].item.key == t.kids[i].key != null
    ensures t.kids[i].item.next == if i + 1 < |t.kids| then t.kids[i + 1].item else null
    ensures v.Array? ==> i < |v.items| && KidValue(v, i) == v.items[i]
    ensures v.Object? ==> i < |v.members| && KidValue(v, i) == v.members[i].value
    ensures Reach(t.kids[i]) <= Reach(t)
  {
  }

  // ---------------------------------------------------------------- the allocator

  class Allocator {
    ghost var live: set<object>   // what was allocated and not freed yet
    ghost var refusals: nat       // how many requests were refused

    /** cJSON_New_Item: any request may be refused. */
    method NewItem() returns (item: Item?)
      modifies this
      ensures item == null ==> live == old(live) && refusals == old(refusals) + 1
      ensures item != null ==> fresh(item) && live == old(live) + {item} && refusals == old(refusals)
      ensures item != null ==>
                && item.next == null && item.prev == null && item.child == null && item.valuestring == null
                && item.key == null
                && item.kind == InvalidKind && !item.isReference && !item.stringIsConst && item.number == ""
    {
      if * {
        item := null;
        refusals := refusals + 1;
      } else {
        item := new Item();
        live := live + {item};
      }
    }

    /** hooks.allocate for a byte buffer, of arbitrary contents. */
    method Allocate(size: nat) returns (a: array?<char>)
      modifies this
      ensures a == null ==> live == old(live) && refusals == old(refusals) + 1
      ensures a != null ==> fresh(a) && a.Length == size && live == old(live) + {a} && refusals == old(refusals)
    {
      if * {
        a := null;
        refusals := refusals + 1;
      } else {
        a := new char[size];
        live := live + {a};
      }
    }

    /** hooks.reallocate: on success the old block is gone and its first bytes have moved. */
    method Reallocate(a: array<char>, size: nat) returns (b: array?<char>)
      requires a in live
      modifies this
      ensures b == null ==> live == old(live) && refusals == old(refusals) + 1
      ensures b != null ==> fresh(b) && b.Length == size && live == old(live) - {a} + {b} && refusals == old(refusals)
      ensures b != null ==> forall i :: 0 <= i < size && i < a.Length ==> b[i] == a[i]
    {
      b := Allocate(size);
      if b != null {
        forall i | 0 <= i < size && i < a.Length {
          b[i] := a[i];
        }
        live := live - {a};
      }
    }

    /** hooks.deallocate: only live memory may be freed, so nothing is freed twice. */
    method Free(o: object)
      requires o in live
      modifies this
      ensures live == old(live) - {o} && refusals == old(refusals)
    {
      live := live - {o};
    }

    /** cJSON_Delete on a chain of siblings: frees what they own, each once, and nothing else. */
    method Delete(first: Item?, ghost ts: seq<Tree>)
      requires first == First(ts) && Linked(ts) && forall i :: 0 <= i < |ts| ==> Shaped(ts[i])
      requires DistinctAll(ts) && OwnedAll(ts) <= live && this !in ReachAll(ts)
      modifies this
      ensures live == old(live) - OwnedAll(ts) && refusals == old(refusals)
      decreases ts, 1
    {
      hide Owned, OwnedAll, Reach, ReachAll, Distinct, DistinctAll, Shaped;
      var item := first;
      ghost var i := 0;
      NothingOwned(ts);
      KidsReached(ts);
      assert forall j :: 0 <= j < |ts| ==> this !in Reach(ts[j]);
      while item != null
        invariant allocated(ReachAll(ts)) && forall j :: 0 <= j < |ts| ==> allocated(Reach(ts[j]))
        invariant Linked(ts) && forall j :: 0 <= j < |ts| ==> Shaped(ts[j])
        invariant i <= |ts| && item == (if i < |ts| then ts[i].item else null)
        invariant live == old(live) - OwnedAll(ts[..i]) && refusals == old(refusals)
        decreases |ts| - i
      {
        DeleteStep(ts, i, old(live), this);
        var next := item.next;
        Release(item, ts[i]);
        item := next;
        i := i + 1;
      }
      assert ts[..i] == ts;
    }

    /** The loop body of cJSON_Delete, for one item. */
    method Release(item: Item, ghost t: Tree)
      requires item == t.item && Shaped(t) && Distinct(t) && Owned(t) <= live && this !in Reach(t)
      modifies this
      ensures live == old(live) - Owned(t) && refusals == old(refusals)
      decreases t, 0
    {
      NothingOwned(t.kids);
      if !item.isReference && item.child != null {
        Delete(item.child, t.kids);
      }
      if !item.isReference && item.valuestring != null {
        Free(item.valuestring);
      }
      if !item.stringIsConst && item.key != null {
        Free(item.key);
      }
      Free(item);
    }
  }

  /** A tree is made of items and byte buffers. */
  lemma {:induction false} NoAllocator(t: Tree, hooks: Allocator)
    ensures hooks !in Reach(t)
  {
    forall i | 0 <= i < |t.kids| ensures hooks !in Reach(t.kids[i]) {
      NoAllocator(t.kids[i], hooks);
    }
  }
}
