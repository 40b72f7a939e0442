/** The expense list view: the list is sorted on a copy with the comparator the
    sort option selects, then grouped by one field into named groups. */
module GroupedExpenses {
  import opened Common

  /** An expense as the frontend holds it. `fields` are its text properties by
      name (category, description, ...); a name missing from the map reads as
      `undefined`. Amounts are in the smallest currency unit and `created_at`
      is the timestamp `new Date(created_at)` yields, in milliseconds. */
  datatype Item = Item(id: int, amount: int, created_at: int, fields: map<string, string>)

  // ------------------------------------------------------------ sorting

  const AmountAsc := "amount_asc"
  const AmountDesc := "amount_desc"

  /** The comparator passed to `sort`: negative when `a` goes first. */
  function Compare(opt: string, a: Item, b: Item): (r: int)
    ensures opt == AmountAsc ==> (r < 0 <==> a.amount < b.amount) && (r == 0 <==> a.amount == b.amount)
    ensures opt == AmountDesc ==> (r < 0 <==> a.amount > b.amount) && (r == 0 <==> a.amount == b.amount)
    ensures opt != AmountAsc && opt != AmountDesc ==>
              (r < 0 <==> a.created_at > b.created_at) && (r == 0 <==> a.created_at == b.created_at)
  {
    if opt == AmountAsc then a.amount - b.amount
    else if opt == AmountDesc then b.amount - a.amount
    else b.created_at - a.created_at
  }

  /** The number each option orders by, smallest first. */
  function SortKey(opt: string, x: Item): int
  {
    if opt == AmountAsc then x.amount
    else if opt == AmountDesc then -x.amount
    else -x.created_at
  }

  /** The comparator is the difference of the keys, so it is a consistent
      comparator: antisymmetric, and transitive because keys are numbers. */
  lemma CompareIsKeyDifference(opt: string, a: Item, b: Item)
    ensures Compare(opt, a, b) == SortKey(opt, a) - SortKey(opt, b)
    ensures Compare(opt, a, b) == -Compare(opt, b, a)
  {
  }

  /** No pair of the sequence is out of order under the comparator. */
  predicate Ordered(s: seq<Item>, opt: string)
  {
    forall i, j :: 0 <= i < j < |s| ==> SortKey(opt, s[i]) <= SortKey(opt, s[j])
  }

  /** Exchanges two elements of `a`. */
  method Swap(a: array<Item>, i: nat, j: nat)
    requires i < j < a.Length
    modifies a
    ensures a[..] == old(a[..])[i := old(a[j])][j := old(a[i])]
    ensures multiset(a[..]) == old(multiset(a[..]))
  {
    a[i], a[j] := a[j], a[i];
  }

  /** During the sink of `s[i]`, now at `j`: the positions up to `i` other than
      `j` are in order, and the sunk element is no larger than those after it. */
  ghost predicate SinkInv(s: seq<Item>, j: nat, i: nat, opt: string)
    requires j <= i < |s|
  {
    && (forall m, n :: 0 <= m < n <= i && m != j && n != j ==> SortKey(opt, s[m]) <= SortKey(opt, s[n]))
    && (forall n :: j < n <= i ==> SortKey(opt, s[j]) <= SortKey(opt, s[n]))
  }

  /** Before the sink, `s[i]` sits at `i` behind an ordered prefix. */
  lemma SinkStart(s: seq<Item>, i: nat, opt: string)
    requires i < |s| && Ordered(s[..i], opt)
    ensures SinkInv(s, i, i, opt)
  {
    assert forall m :: 0 <= m < i ==> s[..i][m] == s[m];
  }

  /** Swapping the sunk element with a larger left neighbour moves it one left. */
  lemma SinkStep(s: seq<Item>, t: seq<Item>, orig: seq<Item>, j: nat, i: nat, opt: string)
    requires 0 < j <= i < |s| && SinkInv(s, j, i, opt)
    requires SortKey(opt, s[j - 1]) > SortKey(opt, s[j])
    requires t == s[j - 1 := s[j]][j := s[j - 1]]
    requires |orig| == |s| && s[i + 1..] == orig[i + 1..]
    ensures SinkInv(t, j - 1, i, opt)
    ensures t[i + 1..] == orig[i + 1..]
  {
    SwapKeepsTail(s, t, j, i);
  }

  /** Swapping at or before `i` leaves the elements after `i` in place. */
  lemma SwapKeepsTail(before: seq<Item>, after: seq<Item>, j: nat, i: nat)
    requires 0 < j <= i < |before|
    requires after == before[j - 1 := before[j]][j := before[j - 1]]
    ensures after[i + 1..] == before[i + 1..]
  {
  }

  /** The sink stops at the front or below an element that is not larger. */
  lemma SinkDone(s: seq<Item>, j: nat, i: nat, opt: string)
    requires j <= i < |s| && SinkInv(s, j, i, opt)
    requires j == 0 || SortKey(opt, s[j - 1]) <= SortKey(opt, s[j])
    ensures Ordered(s[..i + 1], opt)
  {
  }

  /** Moves `a[i]` left past every larger element before it, so that the
      ordered prefix grows by one. */
  method SinkLeft(a: array<Item>, i: nat, opt: string)
    requires i < a.Length && Ordered(a[..i], opt)
    modifies a
    ensures Ordered(a[..i + 1], opt)
    ensures multiset(a[..]) == old(multiset(a[..]))
    ensures a[i + 1..] == old(a[i + 1..])
  {
    SinkStart(a[..], i, opt);
    var j := Sink(a, i, opt);
    SinkDone(a[..], j, i, opt);
  }

  /** The swapping loop of the sink; returns where the element came to rest. */
  method Sink(a: array<Item>, i: nat, opt: string) returns (j: nat)
    requires i < a.Length && SinkInv(a[..], i, i, opt)
    modifies a
    ensures j <= i && SinkInv(a[..], j, i, opt)
    ensures j == 0 || SortKey(opt, a[j - 1]) <= SortKey(opt, a[j])
    ensures multiset(a[..]) == old(multiset(a[..]))
    ensures a[i + 1..] == old(a[i + 1..])
  {
    j := i;
    ghost var orig := a[..];
    while j > 0 && Compare(opt, a[j - 1], a[j]) > 0
      invariant 0 <= j <= i
      invariant SinkInv(a[..], j, i, opt)
      invariant multiset(a[..]) == multiset(orig) && a[i + 1..] == orig[i + 1..]
    {
      CompareIsKeyDifference(opt, a[j - 1], a[j]);
      ghost var before := a[..];
      Swap(a, j - 1, j);
      SinkStep(before, a[..], orig, j, i, opt);
      j := j - 1;
    }
    if j > 0 {
      CompareIsKeyDifference(opt, a[j - 1], a[j]);
    }
  }

  /** Sorts `a` in place by insertion. */
  method SortInPlace(a: array<Item>, opt: string)
    modifies a
    ensures Ordered(a[..], opt)
    ensures multiset(a[..]) == old(multiset(a[..]))
  {
    var i := 0;
    while i < a.Length
      invariant 0 <= i <= a.Length
      invariant Ordered(a[..i], opt)
      invariant multiset(a[..]) == old(multiset(a[..]))
    {
      SinkLeft(a, i, opt);
      i := i + 1;
    }
    assert a[..i] == a[..];
  }

  /** `[...expenses].sort(comparator)`: the sort works on a fresh copy, so the
      caller's list is not reordered. */
  method SortExpenses(expenses: seq<Item>, opt: string) returns (sorted: seq<Item>)
    ensures multiset(sorted) == multiset(expenses)
    ensures forall i, j :: 0 <= i < j < |sorted| ==> Compare(opt, sorted[i], sorted[j]) <= 0
    ensures opt == AmountAsc ==> forall i, j :: 0 <= i < j < |sorted| ==> sorted[i].amount <= sorted[j].amount
    ensures opt == AmountDesc ==> forall i, j :: 0 <= i < j < |sorted| ==> sorted[i].amount >= sorted[j].amount
    ensures opt != AmountAsc && opt != AmountDesc ==>
              forall i, j :: 0 <= i < j < |sorted| ==> sorted[i].created_at >= sorted[j].created_at
  {
    var copy := new Item[|expenses|](i requires 0 <= i < |expenses| => expenses[i]);
    assert copy[..] == expenses;
    SortInPlace(copy, opt);
    sorted := copy[..];
  }

  // ------------------------------------------------------------ grouping

  const Unspecified := "Unspecified"

  /** `item[key] || 'Unspecified'`: a missing or empty value is falsy. */
  function GroupOf(key: string, x: Item): (g: string)
    ensures g != ""
    ensures key in x.fields && x.fields[key] != "" ==> g == x.fields[key]
    ensures !(key in x.fields && x.fields[key] != "") ==> g == Unspecified
  {
    if key in x.fields && x.fields[key] != "" then x.fields[key] else Unspecified
  }

  function GroupOfIn(key: string): Item -> string
  {
    (x: Item) => GroupOf(key, x)
  }

  function InGroup(key: string, name: string): Item -> bool
  {
    (x: Item) => GroupOf(key, x) == name
  }

  /** The properties a plain object `{}` inherits from `Object.prototype`.
      `acc[name]` is truthy for each of them before any group is stored, and
      none of them has a `push` method. */
  const ObjectPrototypeKeys: set<string> := {
    "constructor", "__defineGetter__", "__defineSetter__", "hasOwnProperty",
    "__lookupGetter__", "__lookupSetter__", "isPrototypeOf", "propertyIsEnumerable",
    "toString", "valueOf", "__proto__", "toLocaleString"}

  /** Some item's group name is inherited by the accumulator object. */
  predicate HitsPrototypeKey(arr: seq<Item>, key: string)
  {
    exists x :: x in arr && GroupOf(key, x) in ObjectPrototypeKeys
  }

  datatype Group = Group(name: string, items: seq<Item>)

  /** The distinct group names, in order of first appearance. */
  function GroupNames(arr: seq<Item>, key: string): seq<string>
  {
    Dedup(Map(arr, GroupOfIn(key)))
  }

  /** The group names are distinct and are exactly the names the items carry. */
  lemma GroupNamesMembers(arr: seq<Item>, key: string)
    ensures NoDup(GroupNames(arr, key))
    ensures forall n :: n in GroupNames(arr, key) <==> exists x :: x in arr && GroupOf(key, x) == n
  {
    MapMembers(arr, GroupOfIn(key));
  }

  function GroupFor(arr: seq<Item>, key: string): string -> Group
  {
    (n: string) => Group(n, Filter(arr, InGroup(key, n)))
  }

  /** The intended grouping: one group per distinct name, in order of first
      appearance, holding the items with that name in list order. */
  function Grouped(arr: seq<Item>, key: string): (r: seq<Group>)
    ensures |r| == |GroupNames(arr, key)|
    ensures forall i :: 0 <= i < |r| ==>
              r[i].name == GroupNames(arr, key)[i] && r[i].items == Filter(arr, InGroup(key, r[i].name))
  {
    Map(GroupNames(arr, key), GroupFor(arr, key))
  }

  /** The groups built from the accumulator, in key insertion order. */
  function GroupsFrom(names: seq<string>, acc: map<string, seq<Item>>): (r: seq<Group>)
    requires forall i :: 0 <= i < |names| ==> names[i] in acc
    ensures |r| == |names|
    ensures forall i :: 0 <= i < |names| ==> r[i] == Group(names[i], acc[names[i]])
  {
    seq(|names|, i requires 0 <= i < |names| => Group(names[i], acc[names[i]]))
  }

  /** What the reduce holds after the items `seen`: `names` lists the
      accumulator's own keys in insertion order, each mapped to its items. */
  ghost predicate GroupInv(seen: seq<Item>, key: string, acc: map<string, seq<Item>>, names: seq<string>)
  {
    names == GroupNames(seen, key) && KeysAre(acc, names) && EntriesAre(seen, key, acc)
  }

  ghost predicate KeysAre(acc: map<string, seq<Item>>, names: seq<string>)
  {
    forall n :: n in acc <==> n in names
  }

  /** Each list of the accumulator holds the items of `seen` bearing its name. */
  ghost predicate EntriesAre(seen: seq<Item>, key: string, acc: map<string, seq<Item>>)
  {
    forall n :: n in acc ==> acc[n] == Filter(seen, InGroup(key, n))
  }

  /** `groupByKey(arr, key)`: `arr.reduce` over an object literal. An item whose
      group name is inherited from `Object.prototype` finds `acc[group]` truthy
      and calls `push` on a value that has none: a TypeError (`None` here). */
  method GroupByKey(arr: seq<Item>, key: string) returns (res: Option<seq<Group>>)
    ensures res.None? <==> HitsPrototypeKey(arr, key)
    ensures res.Some? ==> res.value == Grouped(arr, key)
  {
    var acc: map<string, seq<Item>> := map[];
    var names: seq<string> := [];
    var k := 0;
    while k < |arr|
      invariant 0 <= k <= |arr|
      invariant GroupInv(arr[..k], key, acc, names)
      invariant forall x :: x in arr[..k] ==> GroupOf(key, x) !in ObjectPrototypeKeys
    {
      var item := arr[k];
      var group := GroupOf(key, item);
      if group in ObjectPrototypeKeys {
        assert arr[k] in arr;
        return None;
      }
      PrefixStep(arr, k);
      if group !in acc {
        NewGroupStep(arr[..k], key, item, acc, names);
        acc := acc[group := [item]];
        names := names + [group];
      } else {
        SeenGroupStep(arr[..k], key, item, acc, names);
        acc := acc[group := acc[group] + [item]];
      }
      k := k + 1;
    }
    assert arr[..k] == arr;
    FinalGroups(arr, key, acc, names);
    res := Some(GroupsFrom(names, acc));
  }

  lemma PrefixStep<T>(s: seq<T>, k: nat)
    requires k < |s|
    ensures s[..k + 1] == s[..k] + [s[k]]
    ensures forall x :: x in s[..k + 1] <==> x in s[..k] || x == s[k]
  {
    assert s[..k + 1] == s[..k] + [s[k]];
  }

  /** The group names after item `x` is added. */
  lemma NamesStep(seen: seq<Item>, key: string, x: Item)
    ensures GroupNames(seen + [x], key) == SetAdd(GroupNames(seen, key), GroupOf(key, x))
  {
    assert Map(seen + [x], GroupOfIn(key)) == Map(seen, GroupOfIn(key)) + [GroupOf(key, x)];
    AddAllStep([], Map(seen, GroupOfIn(key)), GroupOf(key, x));
  }

  /** The items of group `n` after item `x` is added. */
  lemma ItemsStep(seen: seq<Item>, key: string, x: Item, n: string)
    ensures Filter(seen + [x], InGroup(key, n)) ==
            Filter(seen, InGroup(key, n)) + (if n == GroupOf(key, x) then [x] else [])
  {
    FilterConcat(seen, [x], InGroup(key, n));
    if n != GroupOf(key, x) {
      assert Filter([x], InGroup(key, n)) == [];
    }
  }

  /** Appending `x` to its group's list keeps every list equal to the items of
      that group so far. */
  lemma EntriesStep(seen: seq<Item>, key: string, x: Item, acc: map<string, seq<Item>>, v: seq<Item>)
    requires EntriesAre(seen, key, acc)
    requires v == Filter(seen, InGroup(key, GroupOf(key, x))) + [x]
    ensures EntriesAre(seen + [x], key, acc[GroupOf(key, x) := v])
  {
    var g := GroupOf(key, x);
    forall n | n in acc[g := v] ensures acc[g := v][n] == Filter(seen + [x], InGroup(key, n)) {
      ItemsStep(seen, key, x, n);
      if n != g {
        assert Filter(seen, InGroup(key, n)) + [] == Filter(seen, InGroup(key, n));
      }
    }
  }

  /** An item with a name not seen before appends that name. */
  lemma NewNameStep(seen: seq<Item>, key: string, x: Item, acc: map<string, seq<Item>>, names: seq<string>)
    requires names == GroupNames(seen, key) && KeysAre(acc, names) && GroupOf(key, x) !in acc
    ensures GroupNames(seen + [x], key) == names + [GroupOf(key, x)]
    ensures KeysAre(acc[GroupOf(key, x) := [x]], names + [GroupOf(key, x)])
  {
    NamesStep(seen, key, x);
  }

  /** An item with a name not seen before opens a list holding only it. */
  lemma NewEntryStep(seen: seq<Item>, key: string, x: Item, acc: map<string, seq<Item>>, names: seq<string>)
    requires names == GroupNames(seen, key) && GroupOf(key, x) !in names
    requires EntriesAre(seen, key, acc)
    ensures EntriesAre(seen + [x], key, acc[GroupOf(key, x) := [x]])
  {
    var g := GroupOf(key, x);
    GroupNamesMembers(seen, key);
    FilterNone(seen, InGroup(key, g));
    assert [x] == Filter(seen, InGroup(key, g)) + [x];
    EntriesStep(seen, key, x, acc, [x]);
  }

  /** The reduce step for an item that opens a new group. */
  lemma NewGroupStep(seen: seq<Item>, key: string, x: Item, acc: map<string, seq<Item>>, names: seq<string>)
    requires GroupInv(seen, key, acc, names)
    requires GroupOf(key, x) !in acc
    ensures GroupInv(seen + [x], key, acc[GroupOf(key, x) := [x]], names + [GroupOf(key, x)])
  {
    NewNameStep(seen, key, x, acc, names);
    NewEntryStep(seen, key, x, acc, names);
  }

  /** An item with a name seen before leaves the names and keys as they are. */
  lemma SeenNameStep(seen: seq<Item>, key: string, x: Item, acc: map<string, seq<Item>>, names: seq<string>)
    requires names == GroupNames(seen, key) && KeysAre(acc, names) && GroupOf(key, x) in acc
    ensures GroupNames(seen + [x], key) == names
    ensures KeysAre(acc[GroupOf(key, x) := acc[GroupOf(key, x)] + [x]], names)
  {
    NamesStep(seen, key, x);
    assert acc[GroupOf(key, x) := acc[GroupOf(key, x)] + [x]].Keys == acc.Keys;
  }

  /** The reduce step for an item whose group exists. */
  lemma SeenGroupStep(seen: seq<Item>, key: string, x: Item, acc: map<string, seq<Item>>, names: seq<string>)
    requires GroupInv(seen, key, acc, names)
    requires GroupOf(key, x) in acc
    ensures GroupInv(seen + [x], key, acc[GroupOf(key, x) := acc[GroupOf(key, x)] + [x]], names)
  {
    SeenNameStep(seen, key, x, acc, names);
    EntriesStep(seen, key, x, acc, acc[GroupOf(key, x)] + [x]);
  }

  /** After the reduce, the accumulator lists the intended groups. */
  lemma FinalGroups(arr: seq<Item>, key: string, acc: map<string, seq<Item>>, names: seq<string>)
    requires GroupInv(arr, key, acc, names)
    ensures forall i :: 0 <= i < |names| ==> names[i] in acc
    ensures GroupsFrom(names, acc) == Grouped(arr, key)
  {
    forall i | 0 <= i < |names| ensures names[i] in acc {
      assert names[i] in names;
    }
    var gs := GroupsFrom(names, acc);
    assert forall i :: 0 <= i < |gs| ==> gs[i] == Grouped(arr, key)[i];
  }

  // ------------------------------------------------------------ properties of the grouping

  /** Each item is listed in a group exactly when that group bears its name. */
  lemma InGroupIff(arr: seq<Item>, key: string, i: nat, x: Item)
    requires i < |Grouped(arr, key)|
    ensures x in Grouped(arr, key)[i].items <==> x in arr && GroupOf(key, x) == Grouped(arr, key)[i].name
  {
  }

  /** Every item of the list lands in exactly one group, the one named after
      its field. */
  lemma ExactlyOneGroup(arr: seq<Item>, key: string, x: Item)
    requires x in arr
    ensures exists i :: 0 <= i < |Grouped(arr, key)| && x in Grouped(arr, key)[i].items
    ensures forall i, j ::
              (0 <= i < |Grouped(arr, key)| && 0 <= j < |Grouped(arr, key)|
               && x in Grouped(arr, key)[i].items && x in Grouped(arr, key)[j].items) ==> i == j
    ensures forall i :: 0 <= i < |Grouped(arr, key)| && x in Grouped(arr, key)[i].items ==>
                        Grouped(arr, key)[i].name == GroupOf(key, x)
  {
    var gs := Grouped(arr, key);
    var names := GroupNames(arr, key);
    assert GroupOf(key, x) in names;
    var i :| 0 <= i < |names| && names[i] == GroupOf(key, x);
    assert x in gs[i].items;
  }

  /** Inside a group the items keep their order from the sorted list. */
  lemma GroupKeepsOrder(arr: seq<Item>, key: string, i: nat)
    requires i < |Grouped(arr, key)|
    ensures IsSubsequence(Grouped(arr, key)[i].items, arr)
  {
    FilterIsSubsequence(arr, InGroup(key, Grouped(arr, key)[i].name));
  }

  /** Concatenation of the groups' item lists. */
  function Concat(gs: seq<Group>): seq<Item>
  {
    if |gs| == 0 then [] else gs[0].items + Concat(gs[1..])
  }

  lemma {:induction false} CountInFilter(s: seq<Item>, p: Item -> bool, x: Item)
    ensures multiset(Filter(s, p))[x] == if p(x) then multiset(s)[x] else 0
  {
    if |s| > 0 {
      CountInFilter(s[1..], p, x);
      assert s == [s[0]] + s[1..];
    }
  }

  lemma NoDupTail(names: seq<string>)
    requires |names| > 0 && NoDup(names)
    ensures NoDup(names[1..]) && names[0] !in names[1..]
  {
    forall i, j | 0 <= i < j < |names[1..]| ensures names[1..][i] != names[1..][j] {
      assert names[1..][i] == names[i + 1] && names[1..][j] == names[j + 1];
    }
    forall j | 0 <= j < |names[1..]| ensures names[1..][j] != names[0] {
      assert names[1..][j] == names[j + 1];
    }
  }

  /** Over distinct names, the groups hold each item as often as the list
      does when its name is among them, and not at all otherwise. */
  lemma {:induction false} CountInGroups(arr: seq<Item>, key: string, names: seq<string>, x: Item)
    requires NoDup(names)
    ensures multiset(Concat(Map(names, GroupFor(arr, key))))[x]
            == if GroupOf(key, x) in names then multiset(arr)[x] else 0
  {
    if |names| > 0 {
      var n0, rest := names[0], names[1..];
      var gs := Map(names, GroupFor(arr, key));
      assert gs[1..] == Map(rest, GroupFor(arr, key));
      assert Concat(gs) == Filter(arr, InGroup(key, n0)) + Concat(gs[1..]);
      NoDupTail(names);
      CountInGroups(arr, key, rest, x);
      CountInFilter(arr, InGroup(key, n0), x);
      assert names == [n0] + rest;
    }
  }

  /** Concatenating the groups gives a permutation of the list. */
  lemma GroupsArePermutation(arr: seq<Item>, key: string)
    ensures multiset(Concat(Grouped(arr, key))) == multiset(arr)
  {
    var names := GroupNames(arr, key);
    forall x ensures multiset(Concat(Grouped(arr, key)))[x] == multiset(arr)[x] {
      CountInGroups(arr, key, names, x);
      if x !in arr {
        assert multiset(arr)[x] == 0;
      }
    }
  }

  /** The names of the groups are distinct and each group is non-empty. */
  lemma GroupsDistinctNonEmpty(arr: seq<Item>, key: string)
    ensures forall i, j :: 0 <= i < j < |Grouped(arr, key)| ==> Grouped(arr, key)[i].name != Grouped(arr, key)[j].name
    ensures forall i :: 0 <= i < |Grouped(arr, key)| ==> |Grouped(arr, key)[i].items| > 0
  {
    var gs := Grouped(arr, key);
    forall i | 0 <= i < |gs| ensures |gs[i].items| > 0 {
      assert gs[i].name in GroupNames(arr, key);
      var x :| x in arr && GroupOf(key, x) == gs[i].name;
      assert x in gs[i].items;
    }
  }

  /** A list holding an expense whose category is "constructor" crashes the
      reduce when grouped by category. */
  lemma ConstructorCategoryCrashes(id: int, amount: int, created_at: int)
    ensures HitsPrototypeKey([Item(id, amount, created_at, map["category" := "constructor"])], "category")
  {
    var x := Item(id, amount, created_at, map["category" := "constructor"]);
    assert x in [x];
    assert GroupOf("category", x) == "constructor";
  }
}
