/** cJSON_Duplicate: a deep copy built from fresh memory, or nothing at all. */
module Duplication {
  import opened Prelude
  import opened Json
  import opened Heap
  import opened Comparison
  import opened ItemList

  /** No item of the tree is a reference. */
  ghost predicate Unreferenced(t: Tree) {
    !t.isReference && forall i :: 0 <= i < |t.kids| ==> Unreferenced(t.kids[i])
  }

  /** A missing buffer or a C string. */
  ghost predicate Ended(a: array?<char>)
    reads Buffer(a)
  {
    a != null ==> '\0' in a[..]
  }

  /** Every buffer of the tree is a C string. */
  ghost predicate AllEnded(t: Tree)
    reads Reach(t)
    decreases t
  {
    KidsReached(t.kids);
    Ended(t.value) && Ended(t.key) && forall i :: 0 <= i < |t.kids| ==> AllEnded(t.kids[i])
  }

  /** Both buffers are missing, or the second holds the text of the first. */
  ghost predicate Copied(a: array?<char>, b: array?<char>)
    reads Buffer(a), Buffer(b)
  {
    (a == null <==> b == null) && (a != null ==> HoldsText(b, CString(a[..])))
  }

  lemma {:induction false} CopiedText(a: array?<char>, b: array?<char>, s: string)
    requires Copied(a, b) && HoldsText(a, s)
    ensures HoldsText(b, s)
  {
    HeldString(a, s);
  }

  lemma {:induction false} EndedText(a: array<char>)
    requires Ended(a)
    ensures HoldsText(a, CString(a[..]))
  {
    CStringEnds(a[..]);
  }

  /** cJSON_strdup. */
  method Strdup(s: array<char>, hooks: Allocator) returns (copy: array?<char>)
    requires Ended(s)
    modifies hooks
    ensures copy == null ==> hooks.live == old(hooks.live) && hooks.refusals == old(hooks.refusals) + 1
    ensures copy != null ==>
              fresh(copy) && Copied(s, copy) && hooks.live == old(hooks.live) + {copy}
              && hooks.refusals == old(hooks.refusals)
  {
    EndedText(s);
    var text := CString(s[..]);
    var length := |text| + 1;
    copy := hooks.Allocate(length);
    if copy == null {
      return;
    }
    forall i | 0 <= i < length {
      copy[i] := s[i];
    }
    assert s[..] == old(s[..]);
    assert copy[..|text|] == s[..|text|] == text && copy[|text|] == '\0';
  }

  /** A text of an item is copied, or shared if it is constant. */
  method CopyBuffer(source: array?<char>, constant: bool, hooks: Allocator) returns (ok: bool, copy: array?<char>)
    requires Ended(source)
    modifies hooks
    ensures !ok ==> copy == null && hooks.live == old(hooks.live) && hooks.refusals > old(hooks.refusals)
    ensures ok ==> Copied(source, copy) && hooks.refusals == old(hooks.refusals)
    ensures ok && constant ==> copy == source && hooks.live == old(hooks.live)
    ensures ok && !constant ==> fresh(Buffer(copy)) && hooks.live == old(hooks.live) + Buffer(copy)
  {
    hide HoldsText, CString;
    copy, ok := source, true;
    if source != null {
      if constant {
        EndedText(source);
      } else {
        copy := Strdup(source, hooks);
        ok := copy != null;
      }
    }
  }

  // ---------------------------------------------------------------- one item

  /** The copy of an item without its children. */
  function Shallow(v: Json): Json {
    match v
    case Array(_) => Array([])
    case Object(_) => Object([])
    case _ => v
  }

  ghost predicate KeyCopied(t2: Tree, t: Tree)
    reads Buffer(t2.key), Buffer(t.key)
  {
    && Copied(t.key, t2.key) && t2.stringIsConst == t.stringIsConst && (t.stringIsConst ==> t2.key == t.key)
  }

  /** `t2` is a copy of the item of `t` standing for `v`. A constant key is shared, everything else is new. */
  ghost predicate CopyOf(t2: Tree, t: Tree, v: Json)
    reads Reach(t2), Buffer(t.key)
  {
    && Shaped(t2) && Means(t2, v) && Distinct(t2) && Unreferenced(t2)
    && KeyCopied(t2, t) && t2.item.next == null && t2.item.prev == null
  }

  /** An item without children owns itself and its buffers. */
  lemma {:induction false} LeafOwns(t: Tree)
    requires t.kids == [] && !t.isReference && (t.key != null && !t.stringIsConst ==> t.key != t.value)
    requires t.item.isReference == t.isReference && t.item.stringIsConst == t.stringIsConst
    requires t.item.valuestring == t.value && t.item.key == t.key && t.item.child == null
    requires t.item.next == null && t.item.prev == null
    ensures Shaped(t) && Distinct(t) && Linked([t]) && DistinctAll([t]) && OwnedAll([t]) == Owned(t)
            && ReachAll([t]) == Reach(t)
    ensures Owned(t) == {t.item} + Buffer(t.value) + (if t.stringIsConst then {} else Buffer(t.key))
    ensures Reach(t) == {t.item} + Buffer(t.value) + Buffer(t.key)
  {
    assert OwnedAll([]) == {} && ReachAll([]) == {};
    SingleOwned(t);
  }

  /** The copied fields make the copy stand for the same leaf value. */
  lemma {:induction false} LeafMeans(t2: Tree, t: Tree, v: Json)
    requires Stands(t.item, t, v) && t2.kids == [] && t2.item.kind == t.item.kind && t2.item.number == t.item.number
    requires Copied(t.value, t2.value)
    ensures Means(t2, Shallow(v))
  {
    match v
    case String(s) => CopiedText(t.value, t2.value, s);
    case Raw(s) => CopiedText(t.value, t2.value, s);
    case _ =>
  }

  /** The way out of a failed copy. */
  method DiscardItem(newItem: Item, hooks: Allocator, ghost t2: Tree)
    requires t2.item == newItem && t2.kids == [] && !t2.isReference
             && (t2.key != null && !t2.stringIsConst ==> t2.key != t2.value)
    requires newItem.isReference == t2.isReference && newItem.stringIsConst == t2.stringIsConst
    requires newItem.valuestring == t2.value && newItem.key == t2.key && newItem.child == null
    requires newItem.next == null && newItem.prev == null
    requires {newItem} + Buffer(t2.value) + (if t2.stringIsConst then {} else Buffer(t2.key)) <= hooks.live
    modifies hooks
    ensures hooks.live
            == old(hooks.live) - ({newItem} + Buffer(t2.value) + (if t2.stringIsConst then {} else Buffer(t2.key)))
    ensures hooks.refusals == old(hooks.refusals)
  {
    hide Reach, ReachAll, Owned, OwnedAll, Distinct, DistinctAll, Shaped, Linked;
    LeafOwns(t2);
    NoAllocator(t2, hooks);
    hooks.Delete(newItem, [t2]);
  }

  /** What a leaf owns: itself, its value and its key, unless that is constant. */
  ghost function LeafOwned(item: Item): set<object>
    reads item
  {
    {item} + Buffer(item.valuestring) + (if item.stringIsConst then {} else Buffer(item.key))
  }

  /** The new item of cJSON_Duplicate with everything but its key. */
  method CopyValue(item: Item, hooks: Allocator) returns (newItem: Item?)
    requires Ended(item.valuestring)
    modifies hooks
    ensures newItem == null ==> hooks.live == old(hooks.live) && hooks.refusals > old(hooks.refusals)
    ensures newItem != null ==>
              && newItem.kind == item.kind && newItem.number == item.number
              && !newItem.isReference && newItem.stringIsConst == item.stringIsConst
              && newItem.next == null && newItem.prev == null && newItem.child == null && newItem.key == null
              && Copied(item.valuestring, newItem.valuestring)
              && fresh({newItem} + Buffer(newItem.valuestring))
              && hooks.live == old(hooks.live) + {newItem} + Buffer(newItem.valuestring)
              && hooks.refusals == old(hooks.refusals)
  {
    hide HoldsText, CString;
    assert allocated(Buffer(item.valuestring));
    newItem := hooks.NewItem();
    if newItem == null {
      return;
    }
    newItem.kind, newItem.isReference, newItem.stringIsConst := item.kind, false, item.stringIsConst;
    newItem.number := item.number;
    var ok;
    ok, newItem.valuestring := CopyBuffer(item.valuestring, false, hooks);
    if !ok {
      DiscardItem(newItem, hooks, Tree(newItem, false, item.stringIsConst, null, null, []));
      return null;
    }
  }

  /** The new item of cJSON_Duplicate with its own fields. */
  method CopyFields(item: Item, hooks: Allocator) returns (newItem: Item?)
    requires Ended(item.valuestring) && Ended(item.key)
    modifies hooks
    ensures newItem == null ==> hooks.live == old(hooks.live) && hooks.refusals > old(hooks.refusals)
    ensures newItem != null ==>
              && newItem.kind == item.kind && newItem.number == item.number
              && !newItem.isReference && newItem.stringIsConst == item.stringIsConst
              && newItem.next == null && newItem.prev == null && newItem.child == null
              && Copied(item.valuestring, newItem.valuestring) && Copied(item.key, newItem.key)
              && (item.stringIsConst ==> newItem.key == item.key)
              && (newItem.key != null && !newItem.stringIsConst ==> newItem.key != newItem.valuestring)
              && fresh(LeafOwned(newItem)) && hooks.live == old(hooks.live) + LeafOwned(newItem)
              && hooks.refusals == old(hooks.refusals)
  {
    hide HoldsText, CString;
    assert allocated(Buffer(item.valuestring)) && allocated(Buffer(item.key));
    newItem := CopyValue(item, hooks);
    if newItem == null {
      return;
    }
    var ok;
    ok, newItem.key := CopyBuffer(item.key, item.stringIsConst, hooks);
    if !ok {
      DiscardItem(newItem, hooks, Tree(newItem, false, item.stringIsConst, newItem.valuestring, null, []));
      return null;
    }
  }

  lemma {:induction false} TreeFacts(item: Item?, t: Tree, v: Json)
    requires Stands(item, t, v) && AllEnded(t)
    ensures item == t.item && t.item.valuestring == t.value && t.item.key == t.key
            && t.item.stringIsConst == t.stringIsConst
    ensures Ended(t.value) && Ended(t.key)
  {
  }

  /** cJSON_Duplicate up to the children. */
  method CopyItem(item: Item, hooks: Allocator, ghost t: Tree, ghost v: Json) returns (newItem: Item?, ghost t2: Tree)
    requires Stands(item, t, v) && AllEnded(t)
    modifies hooks
    ensures newItem == null ==> hooks.live == old(hooks.live) && hooks.refusals > old(hooks.refusals)
    ensures newItem != null ==>
              && t2.item == newItem && t2.kids == [] && CopyOf(t2, t, Shallow(v))
              && fresh(Owned(t2)) && hooks.live == old(hooks.live) + Owned(t2) && hooks.refusals == old(hooks.refusals)
  {
    hide Reach, ReachAll, Owned, OwnedAll, Distinct, DistinctAll, Shaped, Means, HoldsText, CString, Shallow, Linked,
         AllEnded, Stands, Ended;
    TreeFacts(item, t, v);
    NoAllocator(t, hooks);
    assert allocated(Reach(t));
    t2 := t;
    newItem := CopyFields(item, hooks);
    if newItem != null {
      t2 := Tree(newItem, false, item.stringIsConst, newItem.valuestring, newItem.key, []);
      LeafOwns(t2);
      LeafMeans(t2, t, v);
    }
  }

  // ---------------------------------------------------------------- the children

  /** Without references every item below is owned. */
  lemma {:induction false} ItemsOwned(t: Tree)
    requires Unreferenced(t)
    ensures forall item: Item :: item in Reach(t) ==> item in Owned(t)
    ensures forall item: Item :: item in ReachAll(t.kids) ==> item in Below(t)
  {
    forall item: Item | item in ReachAll(t.kids) ensures item in OwnedAll(t.kids) {
      var i :| 0 <= i < |t.kids| && item in Reach(t.kids[i]);
      ItemsOwned(t.kids[i]);
    }
  }

  lemma {:induction false} OwnedAmong(ts: seq<Tree>, i: nat)
    requires i < |ts|
    ensures Owned(ts[i]) <= OwnedAll(ts)
  {
    hide Owned;
  }

  /** What a tree owns when it gets one more child. */
  lemma {:induction false} OwnsChild(t: Tree, c: Tree)
    requires !t.isReference
    ensures var u := t.(kids := t.kids + [c]); Below(u) == Below(t) + Owned(c) && Owned(u) == Owned(t) + Owned(c)
    ensures OwnedAll(t.kids + [c]) == OwnedAll(t.kids) + Owned(c)
    ensures forall i :: 0 <= i < |t.kids| ==> Owned(t.kids[i]) <= Owned(t)
  {
    hide Distinct, DistinctAll, OwnedAll;
    var u := t.(kids := t.kids + [c]);
    OwnedGrows(u.kids, |t.kids|);
    assert u.kids[..|t.kids|] == t.kids && u.kids[..|t.kids| + 1] == u.kids;
    forall i | 0 <= i < |t.kids| ensures Owned(t.kids[i]) <= Owned(t) {
      OwnedAmong(t.kids, i);
    }
  }

  lemma {:induction false} DistinctMore(ts: seq<Tree>, c: Tree)
    requires DistinctAll(ts) && Distinct(c) && forall i :: 0 <= i < |ts| ==> Owned(ts[i]) !! Owned(c)
    ensures DistinctAll(ts + [c])
  {
    hide Distinct, Owned;
    var us := ts + [c];
    assert us[|ts|] == c && forall i :: 0 <= i < |ts| ==> us[i] == ts[i];
  }

  /** A child that shares nothing extends the tree. */
  lemma {:induction false} OwnsMore(t: Tree, c: Tree)
    requires Distinct(t) && Distinct(c) && Unreferenced(t) && Unreferenced(c) && Owned(t) !! Owned(c)
    ensures var u := t.(kids := t.kids + [c]); Distinct(u) && Unreferenced(u) && Owned(u) == Owned(t) + Owned(c)
  {
    hide OwnedAll, Reach, ReachAll;
    var u := t.(kids := t.kids + [c]);
    OwnsChild(t, c);
    assert u.kids[|t.kids|] == c && forall i :: 0 <= i < |t.kids| ==> u.kids[i] == t.kids[i];
    DistinctMore(t.kids, c);
  }

  lemma {:induction false} TreeOwns(t: Tree)
    requires Distinct(t)
    ensures t.item in Owned(t) && t.item !in Below(t) && Below(t) <= Owned(t) && t.item in Reach(t)
  {
  }

  lemma {:induction false} NothingReached(t: Tree)
    ensures ReachAll(t.kids) <= Reach(t)
  {
  }

  lemma {:induction false} KidOwned(t: Tree, j: nat)
    requires Distinct(t) && Unreferenced(t) && j < |t.kids|
    ensures Owned(t.kids[j]) <= Owned(t) && Distinct(t.kids[j]) && Unreferenced(t.kids[j])
  {
    forall o | o in Owned(t.kids[j]) ensures o in OwnedAll(t.kids) {
    }
  }

  lemma {:induction false} KidsApart(t: Tree, i: nat, j: nat)
    requires Distinct(t) && Unreferenced(t) && i < |t.kids| && j < |t.kids|
    ensures i != j ==> Owned(t.kids[i]) !! Owned(t.kids[j])
  {
  }

  /** The items that are written when a child is linked in occur nowhere inside the children. */
  lemma {:induction false} LinksOutside(t: Tree, c: Tree)
    requires Distinct(t) && Distinct(c) && Unreferenced(t) && Unreferenced(c) && Owned(t) !! Owned(c)
    ensures t.item !in ReachAll(t.kids) && t.item !in Reach(c) && c.item !in ReachAll(t.kids)
            && c.item !in ReachAll(c.kids)
    ensures t.kids != [] ==> t.kids[|t.kids| - 1].item !in Reach(c)
    ensures t.kids != [] ==> forall j :: 0 <= j < |t.kids| ==> t.kids[|t.kids| - 1].item !in ReachAll(t.kids[j].kids)
    ensures t.kids != [] ==> forall j :: 0 <= j < |t.kids| - 1 ==> t.kids[|t.kids| - 1].item !in Reach(t.kids[j])
  {
    hide *;
    ItemsOwned(t);
    ItemsOwned(c);
    TreeOwns(t);
    TreeOwns(c);
    NothingReached(t);
    if t.kids != [] {
      var last := t.kids[|t.kids| - 1];
      KidOwned(t, |t.kids| - 1);
      TreeOwns(last);
      forall j | 0 <= j < |t.kids|
        ensures last.item !in ReachAll(t.kids[j].kids) && (j < |t.kids| - 1 ==> last.item !in Reach(t.kids[j]))
      {
        KidOwned(t, j);
        ItemsOwned(t.kids[j]);
        TreeOwns(t.kids[j]);
        KidsApart(t, j, |t.kids| - 1);
      }
    }
  }

  /** The children copied so far. */
  ghost predicate KidsCopied(us: seq<Tree>, ts: seq<Tree>, v: Json)
    reads ReachAll(us), ReachAll(ts)
  {
    KidsReached(us);
    KidsReached(ts);
    |us| <= |ts| && forall j :: 0 <= j < |us| ==> Means(us[j], KidValue(v, j)) && KeyCopied(us[j], ts[j])
  }

  /** A finished child. */
  ghost predicate KidDone(k: Tree, source: Tree, w: Json)
    reads k.item`isReference, k.item`stringIsConst, k.item`valuestring, k.item`key, k.item`child, k.item`kind
    reads k.item`number, ReachAll(k.kids), Buffer(k.value), Buffer(k.key), Buffer(source.key)
  {
    Shaped(k) && Means(k, w) && KeyCopied(k, source)
  }

  /** A tree whose children, chained, are those of `t2` and then `c`. */
  lemma {:induction false} Extended(t2: Tree, c: Tree, t: Tree, v: Json)
    requires var u := t2.(kids := t2.kids + [c]);
             && u.item.isReference == u.isReference && u.item.stringIsConst == u.stringIsConst
             && u.item.valuestring == u.value && u.item.key == u.key && u.item.child == First(u.kids) && Linked(u.kids)
    requires |t2.kids| < |t.kids|
    requires forall j :: 0 <= j < |t2.kids| ==> KidDone(t2.kids[j], t.kids[j], KidValue(v, j))
    requires KidDone(c, t.kids[|t2.kids|], KidValue(v, |t2.kids|))
    ensures var u := t2.(kids := t2.kids + [c]); Shaped(u) && KidsCopied(u.kids, t.kids, v)
  {
    hide Reach, ReachAll, Means, KidValue, KeyCopied, Linked;
    var u := t2.(kids := t2.kids + [c]);
    forall j | 0 <= j < |u.kids|
      ensures Shaped(u.kids[j]) && Means(u.kids[j], KidValue(v, j)) && KeyCopied(u.kids[j], t.kids[j])
    {
      assert j < |t2.kids| ==> u.kids[j] == t2.kids[j] && KidDone(t2.kids[j], t.kids[j], KidValue(v, j));
      assert j == |t2.kids| ==> u.kids[j] == c;
    }
  }

  lemma {:induction false} CopiedSoFar(t2: Tree, t: Tree, v: Json)
    requires Shaped(t2) && KidsCopied(t2.kids, t.kids, v)
    ensures t2.item.isReference == t2.isReference && t2.item.stringIsConst == t2.stringIsConst
    ensures t2.item.valuestring == t2.value && t2.item.key == t2.key && t2.item.child == First(t2.kids)
            && Linked(t2.kids)
    ensures |t2.kids| <= |t.kids|
    ensures forall j :: 0 <= j < |t2.kids| ==> KidDone(t2.kids[j], t.kids[j], KidValue(v, j))
  {
  }

  /** The new child becomes the last one of the chain. */
  method CrossWire(next: Item, newChild: Item, ghost us: seq<Tree>, ghost c: Tree)
    requires us != [] && next == us[|us| - 1].item && newChild == c.item && newChild.next == null && Linked(us)
    requires newChild !in Heads(us) && forall i, j :: 0 <= i < j < |us| ==> us[i].item != us[j].item
    modifies next`next, newChild`prev
    ensures Linked(us + [c])
  {
    next.next := newChild;
    newChild.prev := next;
  }

  lemma {:induction false} BuffersReached(t: Tree)
    ensures Buffer(t.key) <= Reach(t) && Buffer(t.value) <= Reach(t)
  {
  }

  lemma {:induction false} HeadsApart(t: Tree)
    requires Distinct(t) && Unreferenced(t)
    ensures forall i, j :: 0 <= i < j < |t.kids| ==> t.kids[i].item != t.kids[j].item
  {
    Heap.HeadsDiffer(t.kids);
  }

  /** The pointers of the new child. */
  method LinkChild(newItem: Item, next: Item?, newChild: Item, ghost t2: Tree, ghost c: Tree)
    requires t2.item == newItem && c.item == newChild
    requires next == if t2.kids == [] then null else t2.kids[|t2.kids| - 1].item
    requires newItem.child == First(t2.kids) && Linked(t2.kids) && newChild.next == null && newChild.prev == null
    requires newChild !in Heads(t2.kids)
    requires forall i, j :: 0 <= i < j < |t2.kids| ==> t2.kids[i].item != t2.kids[j].item
    modifies newItem`child, (if next == null then {} else {next})`next, newChild`prev
    ensures newItem.child == First(t2.kids + [c]) && Linked(t2.kids + [c])
  {
    if next != null {
      CrossWire(next, newChild, t2.kids, c);
    } else {
      newItem.child := newChild;
    }
  }

  lemma {:induction false} CopyParts(c: Tree, t: Tree, v: Json)
    requires CopyOf(c, t, v)
    ensures KidDone(c, t, v) && Distinct(c) && Unreferenced(c) && c.item.next == null && c.item.prev == null
  {
  }

  /** Linking the new child in leaves the finished children as they are. */
  method ChainCopy(newItem: Item, next: Item?, newChild: Item, ghost t2: Tree, ghost c: Tree, ghost t: Tree,
                   ghost v: Json)
    requires t2.item == newItem && c.item == newChild
    requires next == if t2.kids == [] then null else t2.kids[|t2.kids| - 1].item
    requires newItem.child == First(t2.kids) && Linked(t2.kids) && newChild.next == null && newChild.prev == null
    requires Distinct(t2) && Distinct(c) && Unreferenced(t2) && Unreferenced(c) && Owned(t2) !! Owned(c)
    requires |t2.kids| < |t.kids| && KidDone(c, t.kids[|t2.kids|], KidValue(v, |t2.kids|))
    requires forall j :: 0 <= j < |t2.kids| ==> KidDone(t2.kids[j], t.kids[j], KidValue(v, j))
    modifies newItem`child, (if next == null then {} else {next})`next, newChild`prev
    ensures newItem.child == First(t2.kids + [c]) && Linked(t2.kids + [c])
    ensures KidDone(c, t.kids[|t2.kids|], KidValue(v, |t2.kids|))
    ensures forall j :: 0 <= j < |t2.kids| ==> KidDone(t2.kids[j], t.kids[j], KidValue(v, j))
  {
    hide Reach, ReachAll, Owned, OwnedAll, Distinct, DistinctAll, Means, Shaped, KidValue, Unreferenced, Linked,
         KeyCopied, KidsCopied, KidDone, CopyOf, Below, HoldsText, CString, Copied;
    LinksOutside(t2, c);
    KidsReached(t2.kids);
    ItemsReached(t2.kids);
    HeadsApart(t2);
    KidsReached(t.kids);
    NothingReached(c);
    TreeOwns(c);
    BuffersReached(c);
    assert allocated(Reach(c)) && allocated(ReachAll(t2.kids)) && allocated(ReachAll(c.kids))
           && allocated(ReachAll(t.kids));
    LinkChild(newItem, next, newChild, t2, c);
  }

  /** The new child is linked in. */
  method AttachCopy(newItem: Item, next: Item?, newChild: Item, ghost t2: Tree, ghost c: Tree, ghost t: Tree,
                    ghost v: Json)
    requires t2.item == newItem && c.item == newChild
    requires next == if t2.kids == [] then null else t2.kids[|t2.kids| - 1].item
    requires Shaped(t2) && Distinct(t2) && Unreferenced(t2) && KidsCopied(t2.kids, t.kids, v)
    requires |t2.kids| < |t.kids| && CopyOf(c, t.kids[|t2.kids|], KidValue(v, |t2.kids|)) && Owned(t2) !! Owned(c)
    requires newItem.next == null && newItem.prev == null
    modifies newItem`child, (if next == null then {} else {next})`next, newChild`prev
    ensures var u := t2.(kids := t2.kids + [c]);
            && Shaped(u) && Distinct(u) && Unreferenced(u) && KidsCopied(u.kids, t.kids, v)
            && Owned(u) == Owned(t2) + Owned(c)
    ensures newItem.next == null && newItem.prev == null
  {
    hide Reach, ReachAll, Owned, OwnedAll, Distinct, DistinctAll, Means, Shaped, KidValue, Unreferenced, Linked,
         KeyCopied, KidsCopied, KidDone, CopyOf, Below, HoldsText, CString, Copied;
    CopyParts(c, t.kids[|t2.kids|], KidValue(v, |t2.kids|));
    CopiedSoFar(t2, t, v);
    LinksOutside(t2, c);
    ItemsReached(t2.kids);
    TreeOwns(c);
    OwnsMore(t2, c);
    ChainCopy(newItem, next, newChild, t2, c, t, v);
    Extended(t2, c, t, v);
  }

  /** A copy in progress that stands for the item and its children up to the i-th. */
  ghost predicate Copying(t2: Tree, t: Tree, v: Json, leaf: Tree)
    reads Reach(t2), Reach(t)
  {
    KidsReached(t2.kids);
    && t2 == leaf.(kids := t2.kids) && t2.item.next == null && t2.item.prev == null
    && Shaped(t2) && Distinct(t2) && Unreferenced(t2) && KidsCopied(t2.kids, t.kids, v)
    && Means(t2.(kids := []), Shallow(v)) && KeyCopied(t2, t)
  }

  /** All children are copied. */
  lemma {:induction false} CopyComplete(t2: Tree, t: Tree, v: Json, leaf: Tree)
    requires Copying(t2, t, v, leaf) && Stands(t.item, t, v) && |t2.kids| == |t.kids|
    ensures CopyOf(t2, t, v)
  {
    hide Distinct, Unreferenced;
    match v
    case Object(members) =>
      forall i | 0 <= i < |members|
        ensures HoldsText(t2.kids[i].key, members[i].key) && Means(t2.kids[i], members[i].value)
      {
        KidStands(t, v, i);
        assert KeyCopied(t2.kids[i], t.kids[i]);
        CopiedText(t.kids[i].key, t2.kids[i].key, members[i].key);
      }
    case Array(items) =>
      forall i | 0 <= i < |items| ensures Means(t2.kids[i], items[i]) {
        assert KeyCopied(t2.kids[i], t.kids[i]);
      }
    case _ =>
  }

  lemma {:induction false} StartsCopying(leaf: Tree, t: Tree, v: Json)
    requires CopyOf(leaf, t, Shallow(v)) && leaf.kids == []
    ensures Copying(leaf, t, v, leaf)
  {
    assert leaf.(kids := []) == leaf;
  }

  /** An unfinished copy can be deleted. */
  lemma {:induction false} SingleCopy(t2: Tree, t: Tree, v: Json, leaf: Tree)
    requires Copying(t2, t, v, leaf)
    ensures t2.item == First([t2]) && Linked([t2]) && Shaped(t2) && DistinctAll([t2])
    ensures OwnedAll([t2]) == Owned(t2) && ReachAll([t2]) == Reach(t2)
  {
    hide Reach, ReachAll, Owned, OwnedAll, Shaped, Distinct, DistinctAll, Means, KidsCopied, KeyCopied, Unreferenced;
    SingleOwned(t2);
  }

  lemma {:induction false} NoneReached()
    ensures ReachAll([]) == {}
  {
  }

  /** The items that LinkCopy writes are owned by the copies. */
  lemma {:induction false} LinksOwned(t2: Tree, c: Tree)
    requires Distinct(t2) && Unreferenced(t2) && Distinct(c)
    ensures t2.item in Owned(t2) && c.item in Owned(c)
    ensures t2.kids != [] ==> t2.kids[|t2.kids| - 1].item in Owned(t2)
  {
    if t2.kids != [] {
      KidOwned(t2, |t2.kids| - 1);
      TreeOwns(t2.kids[|t2.kids| - 1]);
    }
  }

  lemma {:induction false} CopyingFacts(t2: Tree, t: Tree, v: Json, leaf: Tree)
    requires Copying(t2, t, v, leaf)
    ensures Distinct(t2) && Unreferenced(t2)
  {
  }

  lemma {:induction false} CopyFacts(c: Tree, t: Tree, v: Json)
    requires CopyOf(c, t, v)
    ensures Distinct(c)
  {
  }

  /** One more child is linked in. */
  method LinkCopy(newItem: Item, next: Item?, newChild: Item, ghost t2: Tree, ghost c: Tree, ghost t: Tree,
                  ghost v: Json, ghost leaf: Tree)
    returns (ghost u: Tree)
    requires Copying(t2, t, v, leaf) && t2.item == newItem && c.item == newChild
    requires next == if t2.kids == [] then null else t2.kids[|t2.kids| - 1].item
    requires |t2.kids| < |t.kids| && CopyOf(c, t.kids[|t2.kids|], KidValue(v, |t2.kids|)) && Owned(t2) !! Owned(c)
    modifies newItem`child, (if next == null then {} else {next})`next, newChild`prev
    ensures u == t2.(kids := t2.kids + [c]) && Copying(u, t, v, leaf) && Owned(u) == Owned(t2) + Owned(c)
  {
    hide Reach, ReachAll, Owned, OwnedAll, Shaped, Distinct, DistinctAll, Means, KidsCopied, KidDone, Unreferenced,
         CopyOf, HoldsText;
    assert allocated(Reach(t2)) && allocated(Reach(t));
    BuffersReached(t2);
    BuffersReached(t);
    u := t2.(kids := t2.kids + [c]);
    assert u.(kids := []) == t2.(kids := []);
    NoneReached();
    AttachCopy(newItem, next, newChild, t2, c, t, v);
  }

  lemma {:induction false} KidsEnded(t: Tree, i: nat)
    requires AllEnded(t) && i < |t.kids|
    ensures AllEnded(t.kids[i])
  {
  }

  /** The loop body of cJSON_Duplicate: the next child is copied and linked in, or the unfinished copy is deleted. */
  method CopyChild(newItem: Item, next: Item?, child: Item, hooks: Allocator, ghost t2: Tree, ghost t: Tree,
                   ghost v: Json, ghost leaf: Tree)
    returns (newChild: Item?, ghost u: Tree)
    requires Stands(t.item, t, v) && AllEnded(t) && Copying(t2, t, v, leaf) && t2.item == newItem
    requires |t2.kids| < |t.kids| && child == t.kids[|t2.kids|].item
    requires next == if t2.kids == [] then null else t2.kids[|t2.kids| - 1].item
    requires Owned(t2) !! Reach(t) && Owned(t2) <= hooks.live
    modifies hooks, newItem`child, (if next == null then {} else {next})`next
    ensures newChild == null ==> hooks.live == old(hooks.live) - Owned(t2) && hooks.refusals > old(hooks.refusals)
    ensures newChild != null ==>
              && Copying(u, t, v, leaf) && u.item == newItem && |u.kids| == |t2.kids| + 1
              && u.kids[|t2.kids|].item == newChild
              && Owned(t2) <= Owned(u) && fresh(Owned(u) - Owned(t2)) && hooks.live == old(hooks.live) + Owned(u)
              && hooks.refusals == old(hooks.refusals)
    decreases t, 0
  {
    hide *;
    ghost var i := |t2.kids|;
    KidStands(t, v, i);
    KidsEnded(t, i);
    NoAllocator(t, hooks);
    NoAllocator(t2, hooks);
    assert allocated(Reach(t)) && allocated(Reach(t2));
    ghost var c;
    newChild, c := Duplicate(child, true, hooks, t.kids[i], KidValue(v, i));
    u := t2;
    if newChild == null {
      SingleCopy(t2, t, v, leaf);
      hooks.Delete(newItem, [t2]);
    } else {
      CopyFacts(c, t.kids[i], KidValue(v, i));
      CopyingFacts(t2, t, v, leaf);
      LinksOwned(t2, c);
      u := LinkCopy(newItem, next, newChild, t2, c, t, v, leaf);
    }
  }

  /**
   cJSON_Duplicate: the copy owns fresh memory only; on failure nothing stays allocated; the source is not written.
   */
  method Duplicate(item: Item?, recurse: bool, hooks: Allocator, ghost t: Tree, ghost v: Json)
    returns (newItem: Item?, ghost t2: Tree)
    requires item != null ==> Stands(item, t, v) && AllEnded(t)
    modifies hooks
    ensures newItem == null ==> hooks.live == old(hooks.live) && (item == null || hooks.refusals > old(hooks.refusals))
    ensures newItem != null ==>
              && item != null && t2.item == newItem && CopyOf(t2, t, if recurse then v else Shallow(v))
              && fresh(Owned(t2)) && hooks.live == old(hooks.live) + Owned(t2) && hooks.refusals == old(hooks.refusals)
    decreases t, 1
  {
    hide *;
    t2 := t;
    if item == null {
      return null, t;
    }
    StandsMeans(item, t, v);
    NoAllocator(t, hooks);
    assert allocated(Reach(t));
    ghost var leaf;
    newItem, leaf := CopyItem(item, hooks, t, v);
    t2 := leaf;
    if newItem == null || !recurse {
      return;
    }
    StartsCopying(leaf, t, v);
    var child, next: Item? := item.child, null;
    while child != null
      invariant Stands(item, t, v) && AllEnded(t) && allocated(Reach(t)) && allocated(Reach(t2))
      invariant Copying(t2, t, v, leaf) && t2.item == newItem
      invariant |t2.kids| <= |t.kids| && child == if |t2.kids| < |t.kids| then t.kids[|t2.kids|].item else null
      invariant next == if t2.kids == [] then null else t2.kids[|t2.kids| - 1].item
      invariant Owned(t2) !! Reach(t)
      invariant fresh(Owned(t2)) && hooks.live == old(hooks.live) + Owned(t2) && hooks.refusals == old(hooks.refusals)
      decreases |t.kids| - |t2.kids|
    {
      var newChild;
      ghost var u;
      CopyingFacts(t2, t, v, leaf);
      LinksOwned(t2, t2);
      newChild, u := CopyChild(newItem, next, child, hooks, t2, t, v, leaf);
      if newChild == null {
        return null, t2;
      }
      KidStands(t, v, |t2.kids|);
      t2 := u;
      next := newChild;
      child := child.next;
    }
    CopyComplete(t2, t, v, leaf);
  }

  lemma {:induction false} ItemsFacts(c: Tree, t: Tree, v: Json)
    requires CopyOf(c, t, v)
    ensures Stands(c.item, c, v) && c.item.kind != InvalidKind && Unreferenced(c) && Distinct(c)
    ensures First([c]) == c.item && Linked([c]) && Shaped([c][0]) && DistinctAll([c]) && OwnedAll([c]) == Owned(c)
            && ReachAll([c]) == Reach(c)
  {
    hide Distinct, DistinctAll, Owned, OwnedAll, Reach, ReachAll;
    SingleOwned(c);
  }

  lemma {:induction false} StandsValid(t: Tree, v: Json)
    requires Stands(t.item, t, v)
    ensures t.item.kind != InvalidKind
  {
  }

  lemma {:induction false} Decided(equal: bool, v: Json, caseSensitive: bool, numeric: string -> Double)
    requires Decides(equal, v, v, true, caseSensitive, numeric)
    ensures equal <==> Coherent(v, caseSensitive, numeric)
  {
  }

  /**
   A deep copy compares equal to its source exactly when members under the same key agree and no number is NaN;
   deleting the copy gives back all its memory.
   */
  method CopyCompareDelete(item: Item, hooks: Allocator, caseSensitive: bool, numeric: string -> Double, ghost t: Tree,
                           ghost v: Json)
    returns (copied: bool, equal: bool)
    requires Stands(item, t, v) && AllEnded(t)
    modifies hooks
    ensures copied ==> (equal <==> Coherent(v, caseSensitive, numeric))
    ensures hooks.live == old(hooks.live)
    ensures !copied ==> hooks.refusals > old(hooks.refusals)
  {
    hide *;
    StandsMeans(item, t, v);
    StandsValid(t, v);
    NoAllocator(t, hooks);
    NodesReached(t);
    assert allocated(Reach(t));
    var newItem;
    ghost var c;
    newItem, c := Duplicate(item, true, hooks, t, v);
    copied, equal := newItem != null, false;
    if copied {
      ItemsFacts(c, t, v);
      ItemsOwned(c);
      NodesReached(c);
      NoAllocator(c, hooks);
      BuffersReached(t);
      assert allocated(Reach(c));
      equal := Compare(newItem, item, caseSensitive, numeric, c, t, v, v);
      Decided(equal, v, caseSensitive, numeric);
      ItemsFacts(c, t, v);
      hooks.Delete(newItem, [c]);
    }
  }

  /**
   The condition can fail: an object with two different values under one key is not equal to its copy, and neither is
   a NaN.
   */
  lemma {:induction false} CopyMayDiffer(numeric: string -> Double, digits: string)
    ensures !Coherent(Object([Member("k", Null), Member("k", True)]), true, numeric)
    ensures numeric(digits) == NaN ==> !Coherent(Array([Number(digits)]), true, numeric)
  {
    var members := [Member("k", Null), Member("k", True)];
    assert Fold(members[0].key, true) == Fold(members[1].key, true);
    assert Meant(members[0].value, true, numeric) != Meant(members[1].value, true, numeric);
    assert [Number(digits)][0] == Number(digits);
  }
}
