/** Facts about sequences that several models use. */
module Sequences {
  ghost predicate Distinct<T>(items: seq<T>) {
    forall i, j :: 0 <= i < j < |items| ==> items[i] != items[j]
  }

  ghost predicate Ascending(items: seq<real>) {
    forall i, j :: 0 <= i < j < |items| ==> items[i] <= items[j]
  }

  /** `indices` in ascending order, from `low` and below `high`. */
  ghost predicate Indices(indices: seq<nat>, low: nat, high: nat) {
    && (forall i :: 0 <= i < |indices| ==> low <= indices[i] < high)
    && (forall i, j :: 0 <= i < j < |indices| ==> indices[i] < indices[j])
  }

  lemma IndicesPrepend(indices: seq<nat>, low: nat, high: nat)
    requires low < high && Indices(indices, low + 1, high)
    ensures Indices(indices, low, high) && Indices([low] + indices, low, high)
  {
  }

  /** All items but the one at index `i`. */
  function Without<T>(items: seq<T>, i: nat): seq<T>
    requires i < |items|
  {
    items[..i] + items[i + 1..]
  }

  lemma ConcatAssociative<T>(a: seq<T>, b: seq<T>, c: seq<T>)
    ensures (a + b) + c == a + (b + c)
  {
  }

  lemma Find<T>(items: seq<T>, item: T) returns (i: nat)
    requires item in multiset(items)
    ensures i < |items| && items[i] == item
    ensures items == items[..i] + [item] + items[i + 1..]
    ensures multiset(items[..i] + items[i + 1..]) == multiset(items) - multiset{item}
  {
    i :| 0 <= i < |items| && items[i] == item;
    assert items == items[..i] + [items[i]] + items[i + 1..];
  }

  lemma DropLast<T>(items: seq<T>)
    requires items != []
    ensures items == items[..|items| - 1] + [items[|items| - 1]] + []
    ensures multiset(items[..|items| - 1]) == multiset(items) - multiset{items[|items| - 1]}
    ensures items[|items| - 1] in multiset(items)
  {
    assert items == items[..|items| - 1] + [items[|items| - 1]];
  }
}
