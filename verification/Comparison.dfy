/** cJSON_Compare: two trees are equal when they mean the same, objects being read as tables from key to value. */
module Comparison {
  import opened Prelude
  import opened Json
  import opened Heap

  /** A double: NaN is equal to nothing, and the two zeros are one. */
  datatype Double = NaN | Infinite(negative: bool) | Finite(value: real)

  /** What a tree says, apart from the order and the repetition of members and the spelling of numbers. */
  datatype Meaning =
    | Nothing
    | No
    | Yes
    | Quantity(value: Double)
    | Text(bytes: string)
    | Verbatim(bytes: string)
    | List(items: seq<Meaning>)
    | Table(entries: map<string, Meaning>)

  /** A key as the comparison sees it. */
  function Fold(key: string, caseSensitive: bool): string {
    if caseSensitive then key else Lower(key)
  }

  /** The position of the first member under the folded key, or the number of members. */
  function Find(members: seq<Member>, key: string, caseSensitive: bool): (k: nat)
    ensures k <= |members|
    ensures k < |members| ==> Fold(members[k].key, caseSensitive) == key
    ensures forall i :: 0 <= i < k ==> Fold(members[i].key, caseSensitive) != key
  {
    if members == [] || Fold(members[0].key, caseSensitive) == key then 0
    else 1 + Find(members[1..], key, caseSensitive)
  }

  function Keys(members: seq<Member>, caseSensitive: bool): set<string> {
    set i | 0 <= i < |members| :: Fold(members[i].key, caseSensitive)
  }

  /** `numeric` is the conversion from number text to its value, any function. */
  function Meant(v: Json, caseSensitive: bool, numeric: string -> Double): (m: Meaning)
    ensures v.Object? ==> m.Table?
  {
    match v
    case Null => Nothing
    case False => No
    case True => Yes
    case Number(digits) => Quantity(numeric(digits))
    case String(s) => Text(s)
    case Raw(s) => Verbatim(s)
    case Array(items) => List(seq(|items|, i requires 0 <= i < |items| => Meant(items[i], caseSensitive, numeric)))
    case Object(members) =>
      Table(map key | key in Keys(members, caseSensitive) ::
              var k := Find(members, key, caseSensitive);
              if k < |members| then Meant(members[k].value, caseSensitive, numeric) else Nothing)
  }

  /** Members under the same key agree and no number is NaN, here and everywhere below. */
  predicate Coherent(v: Json, caseSensitive: bool, numeric: string -> Double) {
    match v
    case Number(digits) => numeric(digits) != NaN
    case Array(items) => forall i :: 0 <= i < |items| ==> Coherent(items[i], caseSensitive, numeric)
    case Object(members) =>
      && (forall i :: 0 <= i < |members| ==> Coherent(members[i].value, caseSensitive, numeric))
      && (forall i, j ::
            0 <= i < j < |members| && Fold(members[i].key, caseSensitive) == Fold(members[j].key, caseSensitive) ==>
            Meant(members[i].value, caseSensitive, numeric) == Meant(members[j].value, caseSensitive, numeric))
    case _ => true
  }

  // ---------------------------------------------------------------- what being equal comes to

  /** Members under one key: byte for byte, or letter case apart. */
  ghost predicate SameKey(m: Member, n: Member, caseSensitive: bool) {
    if caseSensitive then m.key == n.key
    else |m.key| == |n.key| && forall i :: 0 <= i < |m.key| ==> SameLetter(m.key[i], n.key[i])
  }

  /**
   Two trees say the same: values of one kind, strings and raw texts equal byte for byte, numbers of one double, arrays
   equal position by position, and for every member of one object a member of the other under the same key that says the
   same.
   */
  ghost predicate Alike(v: Json, w: Json, caseSensitive: bool, numeric: string -> Double)
    decreases v, 1
  {
    match v
    case Null => w.Null?
    case False => w.False?
    case True => w.True?
    case Number(digits) => w.Number? && numeric(digits) == numeric(w.digits)
    case String(s) => w.String? && s == w.bytes
    case Raw(s) => w.Raw? && s == w.text
    case Array(items) =>
      && w.Array? && |items| == |w.items|
      && forall i :: 0 <= i < |items| ==> Alike(items[i], w.items[i], caseSensitive, numeric)
    case Object(members) =>
      && w.Object?
      && (forall i :: 0 <= i < |members| ==> HasAlike(members[i], w.members, caseSensitive, numeric))
      && (forall j :: 0 <= j < |w.members| ==> AlikeOf(w.members[j], members, caseSensitive, numeric))
  }

  /** There is a member under the same key that says the same. */
  ghost predicate HasAlike(m: Member, others: seq<Member>, caseSensitive: bool, numeric: string -> Double)
    decreases m, 0
  {
    exists j :: 0 <= j < |others| && SameKey(m, others[j], caseSensitive)
                && Alike(m.value, others[j].value, caseSensitive, numeric)
  }

  ghost predicate AlikeOf(n: Member, members: seq<Member>, caseSensitive: bool, numeric: string -> Double)
    decreases members, 0
  {
    exists i :: 0 <= i < |members| && SameKey(members[i], n, caseSensitive)
                && Alike(members[i].value, n.value, caseSensitive, numeric)
  }

  // ---------------------------------------------------------------- laws

  /** No two members of an object have the same key, here and everywhere below. */
  predicate DistinctKeys(v: Json, caseSensitive: bool) {
    match v
    case Array(items) => forall i :: 0 <= i < |items| ==> DistinctKeys(items[i], caseSensitive)
    case Object(members) =>
      && (forall i :: 0 <= i < |members| ==> DistinctKeys(members[i].value, caseSensitive))
      && (forall i, j :: 0 <= i < j < |members| ==>
            Fold(members[i].key, caseSensitive) != Fold(members[j].key, caseSensitive))
    case _ => true
  }

  /** No number of the tree is NaN. */
  predicate NaNFree(v: Json, numeric: string -> Double) {
    match v
    case Number(digits) => numeric(digits) != NaN
    case Array(items) => forall i :: 0 <= i < |items| ==> NaNFree(items[i], numeric)
    case Object(members) => forall i :: 0 <= i < |members| ==> NaNFree(members[i].value, numeric)
    case _ => true
  }

  /** Objects with distinct keys are always comparable, NaN apart. */
  lemma {:induction false} DistinctIsCoherent(v: Json, caseSensitive: bool, numeric: string -> Double)
    requires DistinctKeys(v, caseSensitive) && NaNFree(v, numeric)
    ensures Coherent(v, caseSensitive, numeric)
  {
    match v
    case Array(items) =>
      forall i | 0 <= i < |items| ensures Coherent(items[i], caseSensitive, numeric) {
        DistinctIsCoherent(items[i], caseSensitive, numeric);
      }
    case Object(members) =>
      forall i | 0 <= i < |members| ensures Coherent(members[i].value, caseSensitive, numeric) {
        DistinctIsCoherent(members[i].value, caseSensitive, numeric);
      }
    case _ =>
  }

  /** With distinct keys every member is an entry of the table. */
  lemma {:induction false} EntryOf(members: seq<Member>, caseSensitive: bool, numeric: string -> Double, i: nat)
    requires i < |members|
    requires forall i, j :: 0 <= i < j < |members| ==>
               Fold(members[i].key, caseSensitive) != Fold(members[j].key, caseSensitive)
    ensures var key := Fold(members[i].key, caseSensitive);
            var table := Meant(Object(members), caseSensitive, numeric).entries;
            key in table && table[key] == Meant(members[i].value, caseSensitive, numeric)
  {
    var key := Fold(members[i].key, caseSensitive);
    assert key in Keys(members, caseSensitive);
    assert Find(members, key, caseSensitive) == i;
  }

  /** The table has one entry for each key, the value of its first member. */
  lemma {:induction false} Entry(members: seq<Member>, key: string, caseSensitive: bool, numeric: string -> Double)
    ensures var table := Meant(Object(members), caseSensitive, numeric).entries;
            var k := Find(members, key, caseSensitive);
            && (key in table <==> k < |members|)
            && (key in table ==> table[key] == Meant(members[k].value, caseSensitive, numeric))
  {
    var k := Find(members, key, caseSensitive);
    if k < |members| {
      assert Fold(members[k].key, caseSensitive) in Keys(members, caseSensitive);
    }
  }

  /** Every entry of the one is an entry of the other. */
  predicate Within(a: Meaning, b: Meaning) {
    a.Table? && b.Table? && forall key :: key in a.entries ==> key in b.entries && a.entries[key] == b.entries[key]
  }

  lemma {:induction false} SameTable(a: Meaning, b: Meaning)
    requires Within(a, b) && Within(b, a)
    ensures a == b
  {
    assert a.entries == b.entries;
  }

  lemma {:induction false} EntriesCarryOver(members: seq<Member>, others: seq<Member>, caseSensitive: bool,
                                            numeric: string -> Double)
    requires multiset(members) == multiset(others)
    requires DistinctKeys(Object(members), caseSensitive) && DistinctKeys(Object(others), caseSensitive)
    ensures Within(Meant(Object(members), caseSensitive, numeric), Meant(Object(others), caseSensitive, numeric))
  {
    var a := Meant(Object(members), caseSensitive, numeric).entries;
    forall key | key in a
      ensures key in Meant(Object(others), caseSensitive, numeric).entries
      ensures Meant(Object(others), caseSensitive, numeric).entries[key] == a[key]
    {
      var i :| 0 <= i < |members| && Fold(members[i].key, caseSensitive) == key;
      assert members[i] in multiset(members) && members[i] in multiset(others);
      var j :| 0 <= j < |others| && others[j] == members[i];
      EntryOf(members, caseSensitive, numeric, i);
      EntryOf(others, caseSensitive, numeric, j);
    }
  }

  /** The order of the members does not matter. */
  lemma {:induction false} OrderIrrelevant(members: seq<Member>, others: seq<Member>, caseSensitive: bool,
                                           numeric: string -> Double)
    requires multiset(members) == multiset(others)
    requires DistinctKeys(Object(members), caseSensitive) && DistinctKeys(Object(others), caseSensitive)
    ensures Meant(Object(members), caseSensitive, numeric) == Meant(Object(others), caseSensitive, numeric)
  {
    hide *;
    EntriesCarryOver(members, others, caseSensitive, numeric);
    EntriesCarryOver(others, members, caseSensitive, numeric);
    SameTable(Meant(Object(members), caseSensitive, numeric), Meant(Object(others), caseSensitive, numeric));
  }

  /** Every member of the one has an equal under its key in the other. */
  predicate Covered(members: seq<Member>, others: seq<Member>, caseSensitive: bool, numeric: string -> Double) {
    forall i :: 0 <= i < |members| ==>
      var k := Find(others, Fold(members[i].key, caseSensitive), caseSensitive);
      k < |others| && Meant(members[i].value, caseSensitive, numeric) == Meant(others[k].value, caseSensitive, numeric)
  }

  lemma {:induction false} CoveredEntries(members: seq<Member>, others: seq<Member>, caseSensitive: bool,
                                          numeric: string -> Double)
    requires Covered(members, others, caseSensitive, numeric)
    ensures Within(Meant(Object(members), caseSensitive, numeric), Meant(Object(others), caseSensitive, numeric))
  {
    var a := Meant(Object(members), caseSensitive, numeric).entries;
    forall key | key in a
      ensures key in Meant(Object(others), caseSensitive, numeric).entries
      ensures Meant(Object(others), caseSensitive, numeric).entries[key] == a[key]
    {
      var i := Find(members, key, caseSensitive);
      assert i < |members|;
      var k := Find(others, Fold(members[i].key, caseSensitive), caseSensitive);
      assert Fold(others[k].key, caseSensitive) in Keys(others, caseSensitive);
    }
  }

  /** The two loops of cJSON_Compare over objects decide equality of tables. */
  lemma {:induction false} CoveredBothWays(members: seq<Member>, others: seq<Member>, caseSensitive: bool,
                                           numeric: string -> Double)
    requires Covered(members, others, caseSensitive, numeric) && Covered(others, members, caseSensitive, numeric)
    ensures Meant(Object(members), caseSensitive, numeric) == Meant(Object(others), caseSensitive, numeric)
  {
    hide *;
    CoveredEntries(members, others, caseSensitive, numeric);
    CoveredEntries(others, members, caseSensitive, numeric);
    SameTable(Meant(Object(members), caseSensitive, numeric), Meant(Object(others), caseSensitive, numeric));
  }

  lemma {:induction false} SameKeyFolds(m: Member, n: Member, caseSensitive: bool)
    ensures SameKey(m, n, caseSensitive) <==> Fold(m.key, caseSensitive) == Fold(n.key, caseSensitive)
  {
    hide ToLower, SameLetter;
    if !caseSensitive && |m.key| == |n.key| {
      forall i | 0 <= i < |m.key| ensures SameLetter(m.key[i], n.key[i]) <==> Lower(m.key)[i] == Lower(n.key)[i] {
        LowerLetters(m.key[i], n.key[i]);
      }
      assert Lower(m.key) == Lower(n.key) <==> forall i :: 0 <= i < |m.key| ==> Lower(m.key)[i] == Lower(n.key)[i];
    }
  }

  /** For the values of members, saying the same and meaning the same is one thing. */
  ghost predicate AlikeIsMeant(members: seq<Member>, others: seq<Member>, caseSensitive: bool,
                               numeric: string -> Double) {
    forall i, j :: 0 <= i < |members| && 0 <= j < |others| ==>
      (Alike(members[i].value, others[j].value, caseSensitive, numeric)
       <==> Meant(members[i].value, caseSensitive, numeric) == Meant(others[j].value, caseSensitive, numeric))
  }

  /** A member with a counterpart is covered. */
  lemma {:induction false} CounterpartCovers(m: Member, others: seq<Member>, j: nat, caseSensitive: bool,
                                             numeric: string -> Double)
    requires Coherent(Object(others), caseSensitive, numeric) && j < |others|
    requires SameKey(m, others[j], caseSensitive)
    requires Meant(m.value, caseSensitive, numeric) == Meant(others[j].value, caseSensitive, numeric)
    ensures var k := Find(others, Fold(m.key, caseSensitive), caseSensitive);
            k < |others| && Meant(m.value, caseSensitive, numeric) == Meant(others[k].value, caseSensitive, numeric)
  {
    hide Meant, Fold, SameKey;
    SameKeyFolds(m, others[j], caseSensitive);
    var k := Find(others, Fold(m.key, caseSensitive), caseSensitive);
    assert k <= j;
  }

  /** A covered member has a counterpart: the first one under its key. */
  lemma {:induction false} CoveredCounterpart(m: Member, others: seq<Member>, caseSensitive: bool) returns (k: nat)
    ensures k == Find(others, Fold(m.key, caseSensitive), caseSensitive)
    ensures k < |others| ==> SameKey(m, others[k], caseSensitive) && SameKey(others[k], m, caseSensitive)
  {
    hide Fold, SameKey;
    k := Find(others, Fold(m.key, caseSensitive), caseSensitive);
    if k < |others| {
      SameKeyFolds(m, others[k], caseSensitive);
      SameKeyFolds(others[k], m, caseSensitive);
    }
  }

  lemma {:induction false} SameKeyBack(m: Member, n: Member, caseSensitive: bool)
    ensures SameKey(m, n, caseSensitive) <==> SameKey(n, m, caseSensitive)
  {
    hide SameKey, Fold;
    SameKeyFolds(m, n, caseSensitive);
    SameKeyFolds(n, m, caseSensitive);
  }

  /** Members under one key with values of one meaning. */
  ghost predicate Agree(m: Member, n: Member, caseSensitive: bool, numeric: string -> Double) {
    SameKey(m, n, caseSensitive) && Meant(m.value, caseSensitive, numeric) == Meant(n.value, caseSensitive, numeric)
  }

  ghost predicate Agrees(m: Member, others: seq<Member>, caseSensitive: bool, numeric: string -> Double) {
    exists j :: 0 <= j < |others| && Agree(m, others[j], caseSensitive, numeric)
  }

  /** Every member has a counterpart that agrees. */
  ghost predicate Paired(members: seq<Member>, others: seq<Member>, caseSensitive: bool, numeric: string -> Double) {
    forall i :: 0 <= i < |members| ==> Agrees(members[i], others, caseSensitive, numeric)
  }

  lemma {:induction false} PairedCovers(members: seq<Member>, others: seq<Member>, caseSensitive: bool,
                                        numeric: string -> Double)
    requires Coherent(Object(others), caseSensitive, numeric) && Paired(members, others, caseSensitive, numeric)
    ensures Covered(members, others, caseSensitive, numeric)
  {
    hide Coherent, Meant, Find, Fold, SameKey;
    forall i | 0 <= i < |members|
      ensures var k := Find(others, Fold(members[i].key, caseSensitive), caseSensitive);
              k < |others|
              && Meant(members[i].value, caseSensitive, numeric) == Meant(others[k].value, caseSensitive, numeric)
    {
      assert Agrees(members[i], others, caseSensitive, numeric);
      var j :| 0 <= j < |others| && Agree(members[i], others[j], caseSensitive, numeric);
      CounterpartCovers(members[i], others, j, caseSensitive, numeric);
    }
  }

  /** The converse: coherent objects of the same meaning cover each other. */
  lemma {:induction false} EqualIsCovered(members: seq<Member>, others: seq<Member>, caseSensitive: bool,
                                          numeric: string -> Double, i: nat)
    requires Coherent(Object(members), caseSensitive, numeric) && i < |members|
    requires Meant(Object(members), caseSensitive, numeric) == Meant(Object(others), caseSensitive, numeric)
    ensures var k := Find(others, Fold(members[i].key, caseSensitive), caseSensitive);
            k < |others|
            && Meant(members[i].value, caseSensitive, numeric) == Meant(others[k].value, caseSensitive, numeric)
  {
    hide Meant, Fold, Find;
    var key := Fold(members[i].key, caseSensitive);
    Entry(members, key, caseSensitive, numeric);
    Entry(others, key, caseSensitive, numeric);
  }

  lemma {:induction false} EqualIsPaired(members: seq<Member>, others: seq<Member>, caseSensitive: bool,
                                         numeric: string -> Double)
    requires Coherent(Object(members), caseSensitive, numeric)
    requires Meant(Object(members), caseSensitive, numeric) == Meant(Object(others), caseSensitive, numeric)
    ensures Paired(members, others, caseSensitive, numeric)
  {
    hide Coherent, Meant, Find, Fold, SameKey;
    forall i | 0 <= i < |members| ensures Agrees(members[i], others, caseSensitive, numeric) {
      EqualIsCovered(members, others, caseSensitive, numeric, i);
      var k := CoveredCounterpart(members[i], others, caseSensitive);
      assert Agree(members[i], others[k], caseSensitive, numeric);
    }
  }

  /** Two members of which one thing is known: to say the same is to mean the same. */
  lemma {:induction false} AgreeAlike(m: Member, n: Member, caseSensitive: bool, numeric: string -> Double)
    requires Alike(m.value, n.value, caseSensitive, numeric)
             <==> Meant(m.value, caseSensitive, numeric) == Meant(n.value, caseSensitive, numeric)
    ensures Agree(m, n, caseSensitive, numeric)
            <==> SameKey(m, n, caseSensitive) && Alike(m.value, n.value, caseSensitive, numeric)
    ensures Agree(m, n, caseSensitive, numeric) <==> Agree(n, m, caseSensitive, numeric)
  {
    hide SameKey;
    SameKeyBack(m, n, caseSensitive);
  }

  lemma {:induction false} HasAlikeAgrees(m: Member, others: seq<Member>, caseSensitive: bool,
                                          numeric: string -> Double)
    requires forall j :: 0 <= j < |others| ==>
               (Alike(m.value, others[j].value, caseSensitive, numeric)
                <==> Meant(m.value, caseSensitive, numeric) == Meant(others[j].value, caseSensitive, numeric))
    ensures HasAlike(m, others, caseSensitive, numeric) <==> Agrees(m, others, caseSensitive, numeric)
  {
    hide SameKey, Agree, Meant;
    forall j | 0 <= j < |others|
      ensures Agree(m, others[j], caseSensitive, numeric)
              <==> SameKey(m, others[j], caseSensitive) && Alike(m.value, others[j].value, caseSensitive, numeric)
    {
      AgreeAlike(m, others[j], caseSensitive, numeric);
    }
  }

  lemma {:induction false} AlikeOfAgrees(n: Member, members: seq<Member>, caseSensitive: bool,
                                         numeric: string -> Double)
    requires forall i :: 0 <= i < |members| ==>
               (Alike(members[i].value, n.value, caseSensitive, numeric)
                <==> Meant(members[i].value, caseSensitive, numeric) == Meant(n.value, caseSensitive, numeric))
    ensures AlikeOf(n, members, caseSensitive, numeric) <==> Agrees(n, members, caseSensitive, numeric)
  {
    hide SameKey, Agree, Meant;
    forall i | 0 <= i < |members|
      ensures Agree(n, members[i], caseSensitive, numeric)
              <==> SameKey(members[i], n, caseSensitive) && Alike(members[i].value, n.value, caseSensitive, numeric)
    {
      AgreeAlike(members[i], n, caseSensitive, numeric);
    }
  }

  lemma {:induction false} AlikePaired(members: seq<Member>, others: seq<Member>, caseSensitive: bool,
                                       numeric: string -> Double)
    requires AlikeIsMeant(members, others, caseSensitive, numeric)
    ensures Alike(Object(members), Object(others), caseSensitive, numeric)
            <==> Paired(members, others, caseSensitive, numeric) && Paired(others, members, caseSensitive, numeric)
  {
    hide HasAlike, AlikeOf, Agrees, Meant;
    forall i | 0 <= i < |members|
      ensures HasAlike(members[i], others, caseSensitive, numeric)
              <==> Agrees(members[i], others, caseSensitive, numeric)
    {
      HasAlikeAgrees(members[i], others, caseSensitive, numeric);
    }
    forall j | 0 <= j < |others|
      ensures AlikeOf(others[j], members, caseSensitive, numeric)
              <==> Agrees(others[j], members, caseSensitive, numeric)
    {
      AlikeOfAgrees(others[j], members, caseSensitive, numeric);
    }
  }

  lemma {:induction false} AlikeObjects(members: seq<Member>, others: seq<Member>, caseSensitive: bool,
                                        numeric: string -> Double)
    requires Coherent(Object(members), caseSensitive, numeric) && Coherent(Object(others), caseSensitive, numeric)
    requires AlikeIsMeant(members, others, caseSensitive, numeric)
    ensures Alike(Object(members), Object(others), caseSensitive, numeric)
            <==> Meant(Object(members), caseSensitive, numeric) == Meant(Object(others), caseSensitive, numeric)
  {
    hide *;
    AlikePaired(members, others, caseSensitive, numeric);
    if Alike(Object(members), Object(others), caseSensitive, numeric) {
      PairedCovers(members, others, caseSensitive, numeric);
      PairedCovers(others, members, caseSensitive, numeric);
      CoveredBothWays(members, others, caseSensitive, numeric);
    }
    if Meant(Object(members), caseSensitive, numeric) == Meant(Object(others), caseSensitive, numeric) {
      EqualIsPaired(members, others, caseSensitive, numeric);
      EqualIsPaired(others, members, caseSensitive, numeric);
    }
  }

  lemma {:induction false} ArraysAlike(items: seq<Json>, others: seq<Json>, caseSensitive: bool,
                                       numeric: string -> Double)
    requires |items| == |others| ==> forall i :: 0 <= i < |items| ==>
               (Alike(items[i], others[i], caseSensitive, numeric)
                <==> Meant(items[i], caseSensitive, numeric) == Meant(others[i], caseSensitive, numeric))
    ensures Alike(Array(items), Array(others), caseSensitive, numeric)
            <==> Meant(Array(items), caseSensitive, numeric) == Meant(Array(others), caseSensitive, numeric)
  {
    var a, b := Meant(Array(items), caseSensitive, numeric).items, Meant(Array(others), caseSensitive, numeric).items;
    assert |a| == |items| && |b| == |others|;
    assert forall i :: 0 <= i < |a| ==> a[i] == Meant(items[i], caseSensitive, numeric);
    assert forall i :: 0 <= i < |b| ==> b[i] == Meant(others[i], caseSensitive, numeric);
    assert a == b <==> |a| == |b| && forall i :: 0 <= i < |a| ==> a[i] == b[i];
  }

  /** For coherent trees, to mean the same is to say the same: nothing else is forgotten in `Meant`. */
  lemma {:induction false} AlikeMeans(v: Json, w: Json, caseSensitive: bool, numeric: string -> Double)
    requires Coherent(v, caseSensitive, numeric) && Coherent(w, caseSensitive, numeric)
    ensures Alike(v, w, caseSensitive, numeric) <==>
              Meant(v, caseSensitive, numeric) == Meant(w, caseSensitive, numeric)
  {
    hide Find, Fold, SameKey;
    match v
    case Array(items) =>
      if w.Array? {
        if |items| == |w.items| {
          forall i | 0 <= i < |items|
            ensures Alike(items[i], w.items[i], caseSensitive, numeric)
                    <==> Meant(items[i], caseSensitive, numeric) == Meant(w.items[i], caseSensitive, numeric)
          {
            AlikeMeans(items[i], w.items[i], caseSensitive, numeric);
          }
        }
        ArraysAlike(items, w.items, caseSensitive, numeric);
      }
    case Object(members) =>
      if w.Object? {
        forall i, j | 0 <= i < |members| && 0 <= j < |w.members|
          ensures Alike(members[i].value, w.members[j].value, caseSensitive, numeric)
                  <==> Meant(members[i].value, caseSensitive, numeric)
                       == Meant(w.members[j].value, caseSensitive, numeric)
        {
          AlikeMeans(members[i].value, w.members[j].value, caseSensitive, numeric);
        }
        AlikeObjects(members, w.members, caseSensitive, numeric);
      }
    case _ =>
  }

  /** Coherence without `Meant`: members under one key say the same. */
  lemma {:induction false} CoherentObjects(members: seq<Member>, caseSensitive: bool, numeric: string -> Double)
    requires forall i :: 0 <= i < |members| ==> Coherent(members[i].value, caseSensitive, numeric)
    ensures Coherent(Object(members), caseSensitive, numeric) <==>
              forall i, j :: 0 <= i < j < |members| && SameKey(members[i], members[j], caseSensitive) ==>
                Alike(members[i].value, members[j].value, caseSensitive, numeric)
  {
    hide Meant, Fold, SameKey, Alike;
    forall i, j | 0 <= i < j < |members|
      ensures SameKey(members[i], members[j], caseSensitive)
              <==> Fold(members[i].key, caseSensitive) == Fold(members[j].key, caseSensitive)
      ensures Alike(members[i].value, members[j].value, caseSensitive, numeric)
              <==> Meant(members[i].value, caseSensitive, numeric) == Meant(members[j].value, caseSensitive, numeric)
    {
      SameKeyFolds(members[i], members[j], caseSensitive);
      AlikeMeans(members[i].value, members[j].value, caseSensitive, numeric);
    }
  }

  /** A table that covers its own repetitions is coherent. */
  lemma {:induction false} CoveredIsCoherent(members: seq<Member>, others: seq<Member>, caseSensitive: bool,
                                             numeric: string -> Double)
    requires Covered(members, others, caseSensitive, numeric)
    requires forall i :: 0 <= i < |members| ==> Coherent(members[i].value, caseSensitive, numeric)
    ensures Coherent(Object(members), caseSensitive, numeric)
  {
  }

  // ---------------------------------------------------------------- numbers as they are spelled

  /** The text that is written for a number names the same double, here and everywhere below. */
  predicate Lossless(v: Json, spell: string -> string, numeric: string -> Double) {
    match v
    case Number(digits) => spell(digits) != "null" && numeric(spell(digits)) == numeric(digits)
    case Array(items) => forall i :: 0 <= i < |items| ==> Lossless(items[i], spell, numeric)
    case Object(members) => forall i :: 0 <= i < |members| ==> Lossless(members[i].value, spell, numeric)
    case _ => true
  }

  lemma {:induction false} SameKeysFind(members: seq<Member>, others: seq<Member>, key: string, caseSensitive: bool)
    requires |members| == |others| && forall i :: 0 <= i < |members| ==> members[i].key == others[i].key
    ensures Find(members, key, caseSensitive) == Find(others, key, caseSensitive)
  {
    hide Fold;
    if members != [] {
      SameKeysFind(members[1..], others[1..], key, caseSensitive);
    }
  }

  /** Members under the same keys with values of the same meaning make the same table. */
  lemma {:induction false} SameMembersMean(members: seq<Member>, others: seq<Member>, caseSensitive: bool,
                                           numeric: string -> Double)
    requires |members| == |others|
    requires forall i :: 0 <= i < |members| ==>
               && members[i].key == others[i].key
               && Meant(members[i].value, caseSensitive, numeric) == Meant(others[i].value, caseSensitive, numeric)
    ensures Meant(Object(members), caseSensitive, numeric) == Meant(Object(others), caseSensitive, numeric)
  {
    hide Meant, Find, Fold;
    var a, b := Meant(Object(members), caseSensitive, numeric), Meant(Object(others), caseSensitive, numeric);
    forall key: string
      ensures key in a.entries <==> key in b.entries
      ensures key in a.entries ==> a.entries[key] == b.entries[key]
    {
      SameKeysFind(members, others, key, caseSensitive);
      Entry(members, key, caseSensitive, numeric);
      Entry(others, key, caseSensitive, numeric);
    }
    SameTable(a, b);
  }

  /** With a lossless spelling, a tree that is printed and read again means what it meant. */
  lemma {:induction false} SpelledMeans(v: Json, spell: string -> string, caseSensitive: bool,
                                        numeric: string -> Double)
    requires Lossless(v, spell, numeric)
    ensures Meant(Spelled(v, spell), caseSensitive, numeric) == Meant(v, caseSensitive, numeric)
  {
    match v
    case Array(items) =>
      forall i | 0 <= i < |items|
        ensures Meant(Spelled(items[i], spell), caseSensitive, numeric) == Meant(items[i], caseSensitive, numeric)
      {
        SpelledMeans(items[i], spell, caseSensitive, numeric);
      }
    case Object(members) =>
      var others := Spelled(v, spell).members;
      forall i | 0 <= i < |members|
        ensures Meant(others[i].value, caseSensitive, numeric) == Meant(members[i].value, caseSensitive, numeric)
      {
        SpelledMeans(members[i].value, spell, caseSensitive, numeric);
      }
      SameMembersMean(others, members, caseSensitive, numeric);
    case _ =>
  }

  /** It is coherent exactly when the tree was. */
  lemma {:induction false} SpelledCoherent(v: Json, spell: string -> string, caseSensitive: bool,
                                           numeric: string -> Double)
    requires Lossless(v, spell, numeric)
    ensures Coherent(Spelled(v, spell), caseSensitive, numeric) <==> Coherent(v, caseSensitive, numeric)
  {
    hide Meant, Fold;
    match v
    case Array(items) =>
      var others := Spelled(v, spell).items;
      forall i | 0 <= i < |items|
        ensures Coherent(others[i], caseSensitive, numeric) <==> Coherent(items[i], caseSensitive, numeric)
      {
        SpelledCoherent(items[i], spell, caseSensitive, numeric);
      }
    case Object(members) =>
      var others := Spelled(v, spell).members;
      forall i | 0 <= i < |members|
        ensures Coherent(others[i].value, caseSensitive, numeric) <==>
                  Coherent(members[i].value, caseSensitive, numeric)
        ensures Meant(others[i].value, caseSensitive, numeric) == Meant(members[i].value, caseSensitive, numeric)
      {
        SpelledCoherent(members[i].value, spell, caseSensitive, numeric);
        SpelledMeans(members[i].value, spell, caseSensitive, numeric);
      }
    case _ =>
  }

  // ---------------------------------------------------------------- items on the heap

  /** A buffer holds one text only. */
  lemma {:induction false} OneText(a: array<char>, s: string, t: string)
    requires HoldsText(a, s) && HoldsText(a, t)
    ensures s == t
  {
    HeldString(a, s);
    HeldString(a, t);
  }

  /** A chain is determined by its first item. */
  lemma {:induction false} OneChain(ts: seq<Tree>, us: seq<Tree>)
    requires Linked(ts) && Linked(us) && First(ts) == First(us)
    ensures |ts| == |us| && forall i :: 0 <= i < |ts| ==> ts[i].item == us[i].item
  {
    var i := 0;
    while i < |ts| && i < |us|
      invariant i <= |ts| && i <= |us|
      invariant forall j :: 0 <= j < i ==> ts[j].item == us[j].item
      invariant (if i < |ts| then ts[i].item else null) == (if i < |us| then us[i].item else null)
    {
      assert ts[i].item.next == us[i].item.next;
      i := i + 1;
    }
  }

  /** An item stands for one value only. */
  lemma {:induction false} OneValue(ta: Tree, tb: Tree, va: Json, vb: Json)
    requires ta.item == tb.item && Shaped(ta) && Shaped(tb) && Means(ta, va) && Means(tb, vb)
    ensures va == vb
    decreases ta
  {
    OneChain(ta.kids, tb.kids);
    match va
    case Array(items) =>
      forall i | 0 <= i < |items| ensures items[i] == vb.items[i] {
        OneValue(ta.kids[i], tb.kids[i], items[i], vb.items[i]);
      }
    case Object(members) =>
      forall i | 0 <= i < |members| ensures members[i] == vb.members[i] {
        OneValue(ta.kids[i], tb.kids[i], members[i].value, vb.members[i].value);
        OneText(ta.kids[i].key, members[i].key, vb.members[i].key);
      }
    case String(s) => OneText(ta.value, s, vb.bytes);
    case Raw(s) => OneText(ta.value, s, vb.text);
    case _ =>
  }

  /** The items of a tree. */
  ghost function Nodes(t: Tree): set<Item> {
    {t.item} + AllNodes(t.kids)
  }

  ghost function AllNodes(ts: seq<Tree>): set<Item> {
    set i, o | 0 <= i < |ts| && o in Nodes(ts[i]) :: o
  }

  lemma {:induction false} NodesReached(t: Tree)
    ensures forall item: Item :: item in Nodes(t) ==> item in Reach(t)
  {
    forall item: Item | item in AllNodes(t.kids) ensures item in ReachAll(t.kids) {
      var i :| 0 <= i < |t.kids| && item in Nodes(t.kids[i]);
      NodesReached(t.kids[i]);
    }
  }

  lemma {:induction false} ItemsShallower(items: seq<Json>, i: nat)
    requires i < |items|
    ensures Nesting(items[i]) <= ItemsNesting(items)
  {
    if i > 0 {
      ItemsShallower(items[1..], i - 1);
    }
  }

  lemma {:induction false} MembersShallower(members: seq<Member>, i: nat)
    requires i < |members|
    ensures Nesting(members[i].value) <= MembersNesting(members)
  {
    if i > 0 {
      MembersShallower(members[1..], i - 1);
    }
  }

  /** What the outcome of comparing two items says about the values they stand for. */
  ghost predicate Decides(equal: bool, va: Json, vb: Json, apart: bool, caseSensitive: bool,
                          numeric: string -> Double) {
    && (equal ==> Meant(va, caseSensitive, numeric) == Meant(vb, caseSensitive, numeric))
    && (equal && apart ==> Coherent(va, caseSensitive, numeric) && Coherent(vb, caseSensitive, numeric))
    && (!equal ==> !(Coherent(va, caseSensitive, numeric) && Coherent(vb, caseSensitive, numeric)
                     && Meant(va, caseSensitive, numeric) == Meant(vb, caseSensitive, numeric)))
  }

  /**
   The answer in terms of the trees alone: for items that share nothing yes exactly when both are coherent and say the
   same, and for coherent trees yes exactly when they say the same.
   */
  ghost predicate Answers(equal: bool, va: Json, vb: Json, apart: bool, caseSensitive: bool,
                          numeric: string -> Double) {
    var coherent := Coherent(va, caseSensitive, numeric) && Coherent(vb, caseSensitive, numeric);
    && (apart ==> (equal <==> coherent && Alike(va, vb, caseSensitive, numeric)))
    && (coherent ==> (equal <==> Alike(va, vb, caseSensitive, numeric)))
  }

  lemma {:induction false} DecidesAnswers(equal: bool, va: Json, vb: Json, apart: bool, caseSensitive: bool,
                                          numeric: string -> Double)
    requires Decides(equal, va, vb, apart, caseSensitive, numeric)
    ensures Answers(equal, va, vb, apart, caseSensitive, numeric)
  {
    hide Alike, Coherent, Meant;
    if Coherent(va, caseSensitive, numeric) && Coherent(vb, caseSensitive, numeric) {
      AlikeMeans(va, vb, caseSensitive, numeric);
    }
  }

  /** strcmp says that two C strings are the same. */
  method SameText(a: array?<char>, b: array?<char>, ghost s: string, ghost t: string) returns (same: bool)
    requires HoldsText(a, s) && HoldsText(b, t)
    ensures same <==> s == t
  {
    if a == null || b == null {
      return false;
    }
    HeldString(a, s);
    HeldString(b, t);
    same := CString(a[..]) == CString(b[..]);
  }

  lemma {:induction false} NodesBelow(t: Tree, i: nat)
    requires i < |t.kids|
    ensures Nodes(t.kids[i]) <= Nodes(t)
  {
  }

  /** The children of an item stand for the children of its value. */
  lemma {:induction false} KidStands(t: Tree, v: Json, i: nat)
    requires Stands(t.item, t, v) && i < |t.kids|
    ensures Stands(t.kids[i].item, t.kids[i], KidValue(v, i)) && t.kids[i].item.kind != InvalidKind
    ensures v.Object? ==> HoldsText(t.kids[i].key, v.members[i].key) && t.kids[i].item.key == t.kids[i].key != null
    ensures Nodes(t.kids[i]) <= Nodes(t) && Nesting(KidValue(v, i)) < Nesting(v)
    ensures t.kids[i].item.next == if i + 1 < |t.kids| then t.kids[i + 1].item else null
    ensures v.Array? ==> i < |v.items| && KidValue(v, i) == v.items[i]
    ensures v.Object? ==> i < |v.members| && KidValue(v, i) == v.members[i].value
    ensures Reach(t.kids[i]) <= Reach(t)
  {
    hide Nodes, Stands, Reach, HoldsText;
    ChildStands(t, v, i);
    NodesBelow(t, i);
    if v.Array? {
      ItemsShallower(v.items, i);
    } else {
      MembersShallower(v.members, i);
    }
  }

  /** Arrays agree when they are equally long and agree at every position. */
  lemma {:induction false} ArraysDecided(va: Json, vb: Json, apart: bool, caseSensitive: bool,
                                         numeric: string -> Double)
    requires va.Array? && vb.Array? && |va.items| == |vb.items|
    requires forall j :: 0 <= j < |va.items| ==> Decides(true, va.items[j], vb.items[j], apart, caseSensitive, numeric)
    ensures Decides(true, va, vb, apart, caseSensitive, numeric)
  {
    assert forall j :: 0 <= j < |va.items| ==> Decides(true, va.items[j], vb.items[j], apart, caseSensitive, numeric);
  }

  lemma {:induction false} ArraysDiffer(va: Json, vb: Json, i: nat, apart: bool, caseSensitive: bool,
                                        numeric: string -> Double)
    requires va.Array? && vb.Array? && (|va.items| == |vb.items| ==> i < |va.items|)
    requires i < |va.items| && i < |vb.items| ==>
               Decides(false, va.items[i], vb.items[i], apart, caseSensitive, numeric)
    requires i <= |va.items| && i <= |vb.items|
    ensures Decides(false, va, vb, apart, caseSensitive, numeric)
  {
    if Meant(va, caseSensitive, numeric) == Meant(vb, caseSensitive, numeric) {
      assert |Meant(va, caseSensitive, numeric).items| == |va.items|;
      assert |Meant(vb, caseSensitive, numeric).items| == |vb.items|;
      assert Meant(va, caseSensitive, numeric).items[i] == Meant(vb, caseSensitive, numeric).items[i];
    }
  }

  lemma {:induction false} DecidesApart(equal: bool, va: Json, vb: Json, apart: bool, closer: bool,
                                        caseSensitive: bool, numeric: string -> Double)
    requires apart ==> closer
    requires Decides(equal, va, vb, closer, caseSensitive, numeric)
    ensures Decides(equal, va, vb, apart, caseSensitive, numeric)
    ensures Decides(equal, vb, va, apart, caseSensitive, numeric)
  {
  }

  lemma {:induction false} LowerDiffers(s: string, t: string, i: nat)
    requires i <= |s| && i <= |t| && (i < |s| || i < |t|) && (i < |s| && i < |t| ==> ToLower(s[i]) != ToLower(t[i]))
    ensures Lower(s) != Lower(t)
  {
    if i < |s| && i < |t| {
      assert Lower(s)[i] != Lower(t)[i];
    } else {
      assert |Lower(s)| != |Lower(t)| || |s| == |t|;
    }
  }

  /** case_insensitive_strcmp says that two C strings are the same. */
  method SameIgnoringCase(a: array<char>, b: array<char>, ghost s: string, ghost t: string) returns (same: bool)
    requires HoldsText(a, s) && HoldsText(b, t)
    ensures same <==> Lower(s) == Lower(t)
  {
    if a == b {
      OneText(a, s, t);
      return true;
    }
    assert forall j :: 0 <= j < |s| ==> a[..|s|][j] == a[j];
    assert forall j :: 0 <= j < |t| ==> b[..|t|][j] == b[j];
    var i := 0;
    while ToLower(a[i]) == ToLower(b[i])
      invariant 0 <= i <= |s| && i <= |t|
      invariant forall j :: 0 <= j < i ==> ToLower(s[j]) == ToLower(t[j])
      decreases |s| - i
    {
      if a[i] == '\0' {
        return true;
      }
      i := i + 1;
    }
    LowerDiffers(s, t, i);
    same := false;
  }

  lemma {:induction false} FindUnfolds(members: seq<Member>, k: nat, key: string, caseSensitive: bool)
    requires k <= |members|
    ensures k == |members| ==> Find(members[k..], key, caseSensitive) == 0
    ensures k < |members| ==>
              Find(members[k..], key, caseSensitive)
              == if Fold(members[k].key, caseSensitive) == key then 0
                 else 1 + Find(members[k + 1..], key, caseSensitive)
    ensures k == 0 ==> members[k..] == members
  {
    if k < |members| {
      assert members[k..][1..] == members[k + 1..];
    }
  }

  lemma {:induction false} FoldMeans(a: string, b: string, caseSensitive: bool)
    ensures Fold(a, caseSensitive) == Fold(b, caseSensitive) <==> if caseSensitive then a == b else Lower(a) == Lower(b)
  {
  }

  /** get_object_item: the first member under the key. */
  method GetObjectItem(parent: Item, name: array?<char>, caseSensitive: bool, ghost t: Tree, ghost v: Json,
                       ghost key: string)
    returns (item: Item?, ghost k: nat)
    requires Stands(parent, t, v) && v.Object? && (name != null ==> HoldsText(name, key))
    ensures name == null ==> item == null
    ensures name != null ==> k == Find(v.members, Fold(key, caseSensitive), caseSensitive)
    ensures name != null ==> item == if k < |t.kids| then t.kids[k].item else null
  {
    hide Nodes, Nesting, Reach, ReachAll, Find, Fold, Stands;
    StandsMeans(parent, t, v);
    item, k := parent.child, 0;
    if name == null {
      return null, 0;
    }
    while item != null
      invariant Stands(parent, t, v) && HoldsText(name, key) && allocated(Reach(t)) && allocated(Buffer(name))
      invariant k <= |t.kids| && item == if k < |t.kids| then t.kids[k].item else null
      invariant Find(v.members, Fold(key, caseSensitive), caseSensitive)
                == k + Find(v.members[k..], Fold(key, caseSensitive), caseSensitive)
      decreases |t.kids| - k
    {
      KidStands(t, v, k);
      FindUnfolds(v.members, k, Fold(key, caseSensitive), caseSensitive);
      FoldMeans(key, v.members[k].key, caseSensitive);
      var same;
      if caseSensitive {
        same := SameText(name, item.key, key, v.members[k].key);
      } else {
        same := SameIgnoringCase(name, item.key, key, v.members[k].key);
      }
      if same {
        return;
      }
      item := item.next;
      k := k + 1;
    }
    FindUnfolds(v.members, k, Fold(key, caseSensitive), caseSensitive);
  }

  ghost predicate Matched(m: Member, others: seq<Member>, apart: bool, caseSensitive: bool, numeric: string -> Double) {
    var k := Find(others, Fold(m.key, caseSensitive), caseSensitive);
    k < |others| && Decides(true, m.value, others[k].value, apart, caseSensitive, numeric)
  }

  lemma {:induction false} IsMatched(m: Member, others: seq<Member>, k: nat, apart: bool, caseSensitive: bool,
                                     numeric: string -> Double)
    requires k < |others| && k == Find(others, Fold(m.key, caseSensitive), caseSensitive)
    requires Decides(true, m.value, others[k].value, apart, caseSensitive, numeric)
    ensures Matched(m, others, apart, caseSensitive, numeric)
  {
  }

  lemma {:induction false} AllMatched(members: seq<Member>, others: seq<Member>, apart: bool, caseSensitive: bool,
                                      numeric: string -> Double)
    requires forall j :: 0 <= j < |members| ==> Matched(members[j], others, apart, caseSensitive, numeric)
    ensures Covered(members, others, caseSensitive, numeric)
    ensures apart ==> forall i :: 0 <= i < |members| ==> Coherent(members[i].value, caseSensitive, numeric)
  {
    hide Find, Fold, Coherent, Meant;
    forall i | 0 <= i < |members|
      ensures var k := Find(others, Fold(members[i].key, caseSensitive), caseSensitive);
              k < |others|
              && Meant(members[i].value, caseSensitive, numeric) == Meant(others[k].value, caseSensitive, numeric)
      ensures apart ==> Coherent(members[i].value, caseSensitive, numeric)
    {
      assert Matched(members[i], others, apart, caseSensitive, numeric);
    }
  }

  lemma {:induction false} NotMatched(members: seq<Member>, others: seq<Member>, i: nat, apart: bool,
                                      caseSensitive: bool, numeric: string -> Double)
    requires i < |members|
    requires var k := Find(others, Fold(members[i].key, caseSensitive), caseSensitive);
             k < |others| ==> Decides(false, members[i].value, others[k].value, apart, caseSensitive, numeric)
    ensures Decides(false, Object(members), Object(others), apart, caseSensitive, numeric)
  {
    hide Find, Fold, Meant;
    if Coherent(Object(members), caseSensitive, numeric) && Coherent(Object(others), caseSensitive, numeric)
       && Meant(Object(members), caseSensitive, numeric) == Meant(Object(others), caseSensitive, numeric) {
      EqualIsCovered(members, others, caseSensitive, numeric, i);
    }
  }

  /** Its body, item by item. */
  method CompareItems(a: Item?, b: Item?, caseSensitive: bool, numeric: string -> Double,
                      ghost ta: Tree, ghost tb: Tree, ghost va: Json, ghost vb: Json) returns (equal: bool)
    requires a != null && a.kind != InvalidKind ==> Stands(a, ta, va)
    requires b != null && b.kind != InvalidKind ==> Stands(b, tb, vb)
    ensures a == null || b == null || a.kind == InvalidKind || b.kind == InvalidKind ==> !equal
    ensures a != null && b != null && a.kind != InvalidKind && b.kind != InvalidKind ==>
              Decides(equal, va, vb, Nodes(ta) !! Nodes(tb), caseSensitive, numeric)
    decreases Nesting(va) + Nesting(vb), 2
  {
    if a == null || b == null || a.kind != b.kind || a.kind == InvalidKind {
      return false;
    }
    if a == b {
      OneValue(ta, tb, va, vb);
      return true;
    }
    match a.kind
    case FalseKind => return true;
    case TrueKind => return true;
    case NullKind => return true;
    case NumberKind =>
      var x, y := numeric(a.number), numeric(b.number);
      return x != NaN && y != NaN && x == y;
    case StringKind =>
      equal := SameText(a.valuestring, b.valuestring, va.bytes, vb.bytes);
    case RawKind =>
      equal := SameText(a.valuestring, b.valuestring, va.text, vb.text);
    case ArrayKind =>
      equal := CompareArrays(a, b, caseSensitive, numeric, ta, tb, va, vb);
    case ObjectKind =>
      equal := CompareObjects(a, b, caseSensitive, numeric, ta, tb, va, vb);
  }

  /**
   cJSON_Compare. For items that share nothing the answer is yes exactly when both trees are coherent
   and mean the same. Shared items are equal at once, so for sharing trees coherence is not checked there.
   */
  method Compare(a: Item?, b: Item?, caseSensitive: bool, numeric: string -> Double,
                 ghost ta: Tree, ghost tb: Tree, ghost va: Json, ghost vb: Json) returns (equal: bool)
    requires a != null && a.kind != InvalidKind ==> Stands(a, ta, va)
    requires b != null && b.kind != InvalidKind ==> Stands(b, tb, vb)
    ensures a == null || b == null || a.kind == InvalidKind || b.kind == InvalidKind ==> !equal
    ensures a != null && b != null && a.kind != InvalidKind && b.kind != InvalidKind ==>
              && Decides(equal, va, vb, Nodes(ta) !! Nodes(tb), caseSensitive, numeric)
              && Answers(equal, va, vb, Nodes(ta) !! Nodes(tb), caseSensitive, numeric)
    decreases Nesting(va) + Nesting(vb), 3
  {
    hide *;
    equal := CompareItems(a, b, caseSensitive, numeric, ta, tb, va, vb);
    if a != null && b != null && a.kind != InvalidKind && b.kind != InvalidKind {
      DecidesAnswers(equal, va, vb, Nodes(ta) !! Nodes(tb), caseSensitive, numeric);
    }
  }

  /** The array loop of cJSON_Compare. */
  method CompareArrays(a: Item, b: Item, caseSensitive: bool, numeric: string -> Double,
                       ghost ta: Tree, ghost tb: Tree, ghost va: Json, ghost vb: Json) returns (equal: bool)
    requires Stands(a, ta, va) && Stands(b, tb, vb) && va.Array? && vb.Array?
    ensures Decides(equal, va, vb, Nodes(ta) !! Nodes(tb), caseSensitive, numeric)
    decreases Nesting(va) + Nesting(vb), 1
  {
    hide *;
    StandsMeans(a, ta, va);
    StandsMeans(b, tb, vb);
    var aElement, bElement := a.child, b.child;
    ghost var i := 0;
    ghost var apart := Nodes(ta) !! Nodes(tb);
    while aElement != null && bElement != null
      invariant Stands(a, ta, va) && Stands(b, tb, vb) && allocated(Reach(ta)) && allocated(Reach(tb))
      invariant i <= |ta.kids| && i <= |tb.kids|
      invariant aElement == if i < |ta.kids| then ta.kids[i].item else null
      invariant bElement == if i < |tb.kids| then tb.kids[i].item else null
      invariant forall j :: 0 <= j < i ==> Decides(true, va.items[j], vb.items[j], apart, caseSensitive, numeric)
      decreases |ta.kids| - i
    {
      KidStands(ta, va, i);
      KidStands(tb, vb, i);
      var same := CompareItems(aElement, bElement, caseSensitive, numeric, ta.kids[i], tb.kids[i], va.items[i],
                               vb.items[i]);
      DecidesApart(same, va.items[i], vb.items[i], apart, Nodes(ta.kids[i]) !! Nodes(tb.kids[i]), caseSensitive,
                   numeric);
      if !same {
        ArraysDiffer(va, vb, i, apart, caseSensitive, numeric);
        return false;
      }
      aElement, bElement := aElement.next, bElement.next;
      i := i + 1;
    }
    if aElement != bElement {
      ArraysDiffer(va, vb, i, apart, caseSensitive, numeric);
      return false;
    }
    ArraysDecided(va, vb, apart, caseSensitive, numeric);
    equal := true;
  }

  /** One object loop of cJSON_Compare: every member of `a` has an equal in `b`. */
  method Includes(a: Item, b: Item, caseSensitive: bool, numeric: string -> Double,
                  ghost ta: Tree, ghost tb: Tree, ghost va: Json, ghost vb: Json) returns (equal: bool)
    requires Stands(a, ta, va) && Stands(b, tb, vb) && va.Object? && vb.Object?
    ensures equal ==> Covered(va.members, vb.members, caseSensitive, numeric)
    ensures equal && Nodes(ta) !! Nodes(tb) ==>
              forall i :: 0 <= i < |va.members| ==> Coherent(va.members[i].value, caseSensitive, numeric)
    ensures !equal ==> Decides(false, va, vb, Nodes(ta) !! Nodes(tb), caseSensitive, numeric)
    decreases Nesting(va) + Nesting(vb), 0
  {
    hide *;
    StandsMeans(a, ta, va);
    StandsMeans(b, tb, vb);
    var aElement := a.child;
    ghost var i := 0;
    ghost var apart := Nodes(ta) !! Nodes(tb);
    while aElement != null
      invariant Stands(a, ta, va) && Stands(b, tb, vb) && allocated(Reach(ta)) && allocated(Reach(tb))
      invariant i <= |ta.kids| && aElement == if i < |ta.kids| then ta.kids[i].item else null
      invariant forall j :: 0 <= j < i ==> Matched(va.members[j], vb.members, apart, caseSensitive, numeric)
      decreases |ta.kids| - i
    {
      KidStands(ta, va, i);
      var bElement, k := GetObjectItem(b, aElement.key, caseSensitive, tb, vb, va.members[i].key);
      if bElement == null {
        NotMatched(va.members, vb.members, i, apart, caseSensitive, numeric);
        return false;
      }
      KidStands(tb, vb, k);
      var same := CompareItems(aElement, bElement, caseSensitive, numeric, ta.kids[i], tb.kids[k],
                               va.members[i].value, vb.members[k].value);
      DecidesApart(same, va.members[i].value, vb.members[k].value, apart, Nodes(ta.kids[i]) !! Nodes(tb.kids[k]),
                   caseSensitive, numeric);
      if !same {
        NotMatched(va.members, vb.members, i, apart, caseSensitive, numeric);
        return false;
      }
      IsMatched(va.members[i], vb.members, k, apart, caseSensitive, numeric);
      aElement := aElement.next;
      i := i + 1;
    }
    AllMatched(va.members, vb.members, apart, caseSensitive, numeric);
    equal := true;
  }

  /** The object loops of cJSON_Compare. */
  method CompareObjects(a: Item, b: Item, caseSensitive: bool, numeric: string -> Double,
                        ghost ta: Tree, ghost tb: Tree, ghost va: Json, ghost vb: Json) returns (equal: bool)
    requires Stands(a, ta, va) && Stands(b, tb, vb) && va.Object? && vb.Object?
    ensures Decides(equal, va, vb, Nodes(ta) !! Nodes(tb), caseSensitive, numeric)
    decreases Nesting(va) + Nesting(vb), 1
  {
    hide Nodes, Nesting, Reach, ReachAll, Coherent, Meant, Find, Fold, Covered, Stands;
    assert allocated(Reach(ta)) && allocated(Reach(tb));
    equal := Includes(a, b, caseSensitive, numeric, ta, tb, va, vb);
    if !equal {
      return;
    }
    equal := Includes(b, a, caseSensitive, numeric, tb, ta, vb, va);
    if equal {
      CoveredBothWays(va.members, vb.members, caseSensitive, numeric);
      if Nodes(ta) !! Nodes(tb) {
        CoveredIsCoherent(va.members, vb.members, caseSensitive, numeric);
        CoveredIsCoherent(vb.members, va.members, caseSensitive, numeric);
      }
    }
  }

  // ---------------------------------------------------------------- laws of the comparison

  /** The items are the trees of values, and comparing them is not left to shared items alone. */
  ghost predicate Comparable(ta: Tree, tb: Tree, va: Json, vb: Json, caseSensitive: bool, numeric: string -> Double) {
    || Nodes(ta) !! Nodes(tb)
    || (DistinctKeys(va, caseSensitive) && NaNFree(va, numeric) && DistinctKeys(vb, caseSensitive)
        && NaNFree(vb, numeric))
  }

  /** Then the outcome is settled by the values. */
  lemma {:induction false} Settles(equal: bool, ta: Tree, tb: Tree, va: Json, vb: Json, caseSensitive: bool,
                                   numeric: string -> Double)
    requires Decides(equal, va, vb, Nodes(ta) !! Nodes(tb), caseSensitive, numeric)
    requires Comparable(ta, tb, va, vb, caseSensitive, numeric)
    ensures equal <==> Coherent(va, caseSensitive, numeric) && Coherent(vb, caseSensitive, numeric)
                       && Meant(va, caseSensitive, numeric) == Meant(vb, caseSensitive, numeric)
  {
    hide Coherent, Meant, DistinctKeys, NaNFree, Nodes;
    if !(Nodes(ta) !! Nodes(tb)) {
      DistinctIsCoherent(va, caseSensitive, numeric);
      DistinctIsCoherent(vb, caseSensitive, numeric);
    }
  }

  lemma {:induction false} ComparableBack(ta: Tree, tb: Tree, va: Json, vb: Json, caseSensitive: bool,
                                          numeric: string -> Double)
    requires Comparable(ta, tb, va, vb, caseSensitive, numeric)
    ensures Comparable(tb, ta, vb, va, caseSensitive, numeric)
  {
    hide Nodes, DistinctKeys, NaNFree;
  }

  /** Standing items have a valid kind. */
  lemma {:induction false} Kinds(a: Item, t: Tree, v: Json)
    requires Stands(a, t, v)
    ensures a.kind != InvalidKind
  {
  }

  /** cJSON_Compare is symmetric on trees that share nothing, and on trees with distinct keys and without NaN. */
  method CompareBothWays(a: Item, b: Item, caseSensitive: bool, numeric: string -> Double,
                         ghost ta: Tree, ghost tb: Tree, ghost va: Json, ghost vb: Json)
    returns (forth: bool, back: bool)
    requires Stands(a, ta, va) && Stands(b, tb, vb) && Comparable(ta, tb, va, vb, caseSensitive, numeric)
    ensures forth == back
  {
    hide *;
    Kinds(a, ta, va);
    Kinds(b, tb, vb);
    assert allocated(Reach(ta)) && allocated(Reach(tb));
    forth := Compare(a, b, caseSensitive, numeric, ta, tb, va, vb);
    back := Compare(b, a, caseSensitive, numeric, tb, ta, vb, va);
    ComparableBack(ta, tb, va, vb, caseSensitive, numeric);
    Settles(forth, ta, tb, va, vb, caseSensitive, numeric);
    Settles(back, tb, ta, vb, va, caseSensitive, numeric);
  }

  /** It is transitive on them. */
  method CompareInTurn(a: Item, b: Item, c: Item, caseSensitive: bool, numeric: string -> Double,
                       ghost ta: Tree, ghost tb: Tree, ghost tc: Tree, ghost va: Json, ghost vb: Json, ghost vc: Json)
    returns (first: bool, second: bool, outer: bool)
    requires Stands(a, ta, va) && Stands(b, tb, vb) && Stands(c, tc, vc)
    requires Comparable(ta, tb, va, vb, caseSensitive, numeric) && Comparable(tb, tc, vb, vc, caseSensitive, numeric)
    requires Comparable(ta, tc, va, vc, caseSensitive, numeric)
    ensures first && second ==> outer
  {
    hide *;
    Kinds(a, ta, va);
    Kinds(b, tb, vb);
    Kinds(c, tc, vc);
    assert allocated(Reach(ta)) && allocated(Reach(tb)) && allocated(Reach(tc));
    first := Compare(a, b, caseSensitive, numeric, ta, tb, va, vb);
    second := Compare(b, c, caseSensitive, numeric, tb, tc, vb, vc);
    outer := Compare(a, c, caseSensitive, numeric, ta, tc, va, vc);
    Settles(first, ta, tb, va, vb, caseSensitive, numeric);
    Settles(second, tb, tc, vb, vc, caseSensitive, numeric);
    Settles(outer, ta, tc, va, vc, caseSensitive, numeric);
  }
}
