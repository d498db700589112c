/** What a metric window, a counter or a report row adds up: counts, errors, status codes, latencies. */
module Tallies {

  /** A count map is a multiset of its keys, a histogram a multiset of its samples. */
  datatype Tally = Tally(count: nat, errors: nat, statuses: multiset<nat>, samples: multiset<nat>)

  const Zero := Tally(0, 0, multiset{}, multiset{})

  function Plus(a: Tally, b: Tally): Tally {
    Tally(a.count + b.count, a.errors + b.errors, a.statuses + b.statuses, a.samples + b.samples)
  }

  lemma PlusLaws(a: Tally, b: Tally, c: Tally)
    ensures Plus(a, b) == Plus(b, a)
    ensures Plus(Plus(a, b), c) == Plus(a, Plus(b, c))
    ensures Plus(a, Zero) == a == Plus(Zero, a)
    ensures Plus(Plus(a, b), c) == Plus(Plus(a, c), b)
  {
  }

  type Table<K> = map<K, Tally>

  function At<K>(t: Table<K>, k: K): Tally {
    if k in t then t[k] else Zero
  }

  /** Finds or creates the entry and adds to it. */
  function Add<K>(t: Table<K>, k: K, x: Tally): Table<K> {
    t[k := Plus(At(t, k), x)]
  }

  // ---------------------------------------------------------------------------------------
  // Sums over the entries of a table

  /** The sum does not depend on the order in which the keys are taken; see `SumRemove`. */
  ghost function SumOver<K(!new)>(keys: set<K>, t: Table<K>): Tally {
    if keys == {} then Zero
    else
      var k :| k in keys;
      Plus(At(t, k), SumOver(keys - {k}, t))
  }

  lemma {:induction false} SumRemove<K(!new)>(keys: set<K>, t: Table<K>, k: K)
    requires k in keys
    ensures SumOver(keys, t) == Plus(At(t, k), SumOver(keys - {k}, t))
    decreases |keys|
  {
    var first :| first in keys && SumOver(keys, t) == Plus(At(t, first), SumOver(keys - {first}, t));
    if first != k {
      SumRemove(keys - {first}, t, k);
      SumRemove(keys - {k}, t, first);
      assert keys - {first} - {k} == keys - {k} - {first};
      PlusLaws(At(t, k), At(t, first), SumOver(keys - {k} - {first}, t));
      PlusLaws(At(t, first), At(t, k), SumOver(keys - {k} - {first}, t));
    }
  }

  lemma {:induction false} SumCongruence<K(!new)>(keys: set<K>, t: Table<K>, u: Table<K>)
    requires forall k :: k in keys ==> At(t, k) == At(u, k)
    ensures SumOver(keys, t) == SumOver(keys, u)
    decreases |keys|
  {
    if keys != {} {
      var k :| k in keys;
      SumRemove(keys, t, k);
      SumRemove(keys, u, k);
      SumCongruence(keys - {k}, t, u);
    }
  }

  /** Keys without an entry do not change a sum. */
  lemma {:induction false} SumSuperset<K(!new)>(keys: set<K>, more: set<K>, t: Table<K>)
    requires keys <= more && forall k :: k in more - keys ==> At(t, k) == Zero
    ensures SumOver(more, t) == SumOver(keys, t)
    decreases |more|
  {
    hide Plus, SumOver;
    if k :| k in more && k !in keys {
      SumRemove(more, t, k);
      SumSuperset(keys, more - {k}, t);
      PlusLaws(SumOver(keys, t), Zero, Zero);
    } else {
      assert keys == more;
    }
  }

  /** Adding to an entry adds to the sums it belongs to, and to no other. */
  lemma SumOverAdd<K(!new)>(keys: set<K>, t: Table<K>, k: K, x: Tally)
    ensures SumOver(keys, Add(t, k, x)) == if k in keys then Plus(SumOver(keys, t), x) else SumOver(keys, t)
  {
    hide Plus;
    var u := Add(t, k, x);
    SumCongruence(keys - {k}, t, u);
    if k in keys {
      SumRemove(keys, t, k);
      SumRemove(keys, u, k);
      PlusLaws(At(t, k), x, SumOver(keys - {k}, t));
    } else {
      assert keys - {k} == keys;
    }
  }

  ghost function Sum<K(!new)>(t: Table<K>): Tally {
    SumOver(t.Keys, t)
  }

  /** Adding to one entry adds to the sum over all entries. */
  lemma SumAdd<K(!new)>(t: Table<K>, k: K, x: Tally)
    ensures Sum(Add(t, k, x)) == Plus(Sum(t), x)
  {
    var keys := t.Keys + {k};
    assert Add(t, k, x).Keys == keys;
    SumOverAdd(keys, t, k, x);
    SumSuperset(t.Keys, keys, t);
  }

  // ---------------------------------------------------------------------------------------
  // Ledgers: tables that are filled and drained

  /** A ledger either adds to an entry, or takes out every entry whose key is chosen. */
  datatype Op<!K> = Put(key: K, tally: Tally) | Take(which: K -> bool)

  function Taken<K>(t: Table<K>, which: K -> bool): Table<K> {
    map k | k in t && which(k) :: t[k]
  }

  function Left<K>(t: Table<K>, which: K -> bool): Table<K> {
    map k | k in t && !which(k) :: t[k]
  }

  function After<K>(held: Table<K>, op: Op<K>): Table<K> {
    match op
    case Put(k, x) => Add(held, k, x)
    case Take(which) => Left(held, which)
  }

  /** What the ledger holds after the operations. */
  function Held<K>(ops: seq<Op<K>>): Table<K> {
    if ops == [] then map[] else After(Held(ops[..|ops| - 1]), ops[|ops| - 1])
  }

  lemma HeldAfter<K(!new)>(ops: seq<Op<K>>, op: Op<K>)
    ensures Held(ops + [op]) == After(Held(ops), op)
  {
    assert (ops + [op])[..|ops|] == ops;
  }

  /** What the operations have taken out, one table for each. */
  function Out<K>(ops: seq<Op<K>>): seq<Table<K>> {
    if ops == [] then []
    else match ops[|ops| - 1]
         case Put(_, _) => Out(ops[..|ops| - 1])
         case Take(which) => Out(ops[..|ops| - 1]) + [Taken(Held(ops[..|ops| - 1]), which)]
  }

  lemma OutAfter<K(!new)>(ops: seq<Op<K>>, op: Op<K>)
    ensures Out(ops + [op]) == if op.Put? then Out(ops) else Out(ops) + [Taken(Held(ops), op.which)]
  {
    assert (ops + [op])[..|ops|] == ops;
  }

  function TotalOut<K>(out: seq<Table<K>>, k: K): Tally {
    if out == [] then Zero else Plus(TotalOut(out[..|out| - 1], k), At(out[|out| - 1], k))
  }

  /** Everything ever put under a key. */
  function Recorded<K(==)>(ops: seq<Op<K>>, k: K): Tally {
    if ops == [] then Zero
    else
      var before := Recorded(ops[..|ops| - 1], k);
      match ops[|ops| - 1]
      case Put(k', x) => if k' == k then Plus(before, x) else before
      case Take(_) => before
  }

  /** Conservation: for every key, what was taken out and what is still held add up to what was
      recorded, whatever the order of the operations. */
  lemma {:induction false} Conservation<K(!new)>(ops: seq<Op<K>>, k: K)
    ensures Plus(TotalOut(Out(ops), k), At(Held(ops), k)) == Recorded(ops, k)
    decreases |ops|
  {
    hide Plus;
    if ops == [] {
      PlusLaws(Zero, Zero, Zero);
    } else {
      var front := ops[..|ops| - 1];
      Conservation(front, k);
      var held, total := Held(front), TotalOut(Out(front), k);
      match ops[|ops| - 1]
      case Put(k', x) =>
        PlusLaws(total, At(held, k), x);
      case Take(which) =>
        var taken := Taken(held, which);
        assert (Out(front) + [taken])[..|Out(front)|] == Out(front);
        PlusLaws(total, At(held, k), Zero);
    }
  }

  // ---------------------------------------------------------------------------------------
  // How often a key is taken out

  function Times<K>(out: seq<Table<K>>, k: K): nat {
    if out == [] then 0 else Times(out[..|out| - 1], k) + if k in out[|out| - 1] then 1 else 0
  }

  ghost predicate TakenOnce<K(!new)>(out: seq<Table<K>>) {
    forall k :: Times(out, k) <= 1
  }

  /** No entry is put under a key that has already been taken out. */
  ghost predicate NoLatePut<K(!new)>(ops: seq<Op<K>>) {
    forall i :: 0 <= i < |ops| && ops[i].Put? ==> Times(Out(ops[..i]), ops[i].key) == 0
  }

  lemma NoLatePutOneMore<K(!new)>(ops: seq<Op<K>>, op: Op<K>)
    ensures NoLatePut(ops + [op]) <==> NoLatePut(ops) && (op.Put? ==> Times(Out(ops), op.key) == 0)
  {
    var more := ops + [op];
    assert more[..|ops|] == ops;
    assert forall i :: 0 <= i < |ops| ==> more[..i] == ops[..i] && more[i] == ops[i];
    if NoLatePut(more) {
      assert op.Put? ==> more[|ops|].Put? && Times(Out(more[..|ops|]), more[|ops|].key) == 0;
      forall i | 0 <= i < |ops| && ops[i].Put?
        ensures Times(Out(ops[..i]), ops[i].key) == 0
      {
        assert Times(Out(more[..i]), more[i].key) == 0;
      }
    }
  }

  lemma TimesOneMore<K(!new)>(ops: seq<Op<K>>, op: Op<K>, k: K)
    ensures Times(Out(ops + [op]), k) == Times(Out(ops), k) + if op.Take? && k in Held(ops) && op.which(k) then 1 else 0
  {
    assert (ops + [op])[..|ops|] == ops;
    if op.Take? {
      var taken := Taken(Held(ops), op.which);
      assert (Out(ops) + [taken])[..|Out(ops)|] == Out(ops);
    }
  }

  lemma {:induction false} TimesHeld<K(!new)>(ops: seq<Op<K>>, k: K)
    requires NoLatePut(ops)
    ensures Times(Out(ops), k) + (if k in Held(ops) then 1 else 0) <= 1
    decreases |ops|
  {
    if ops != [] {
      var front := ops[..|ops| - 1];
      assert forall i :: 0 <= i <= |front| ==> front[..i] == ops[..i];
      TimesHeld(front, k);
      match ops[|ops| - 1]
      case Put(k', x) =>
        assert ops[..|ops| - 1] == front;
      case Take(which) =>
        var taken := Taken(Held(front), which);
        assert (Out(front) + [taken])[..|Out(front)|] == Out(front);
    }
  }

  /** How often the key has been taken out, or still will be. */
  ghost function Seen<K>(ops: seq<Op<K>>, k: K): nat {
    Times(Out(ops), k) + if k in Held(ops) then 1 else 0
  }

  lemma TimesStep<K(!new)>(ops: seq<Op<K>>, k: K)
    requires ops != []
    ensures Seen(ops[..|ops| - 1], k) <= Seen(ops, k)
  {
    var front := ops[..|ops| - 1];
    match ops[|ops| - 1]
    case Put(_, _) =>
    case Take(which) =>
      var taken := Taken(Held(front), which);
      assert (Out(front) + [taken])[..|Out(front)|] == Out(front);
  }

  lemma {:induction false} TimesGrow<K(!new)>(ops: seq<Op<K>>, i: nat, k: K)
    requires i <= |ops|
    ensures Seen(ops[..i], k) <= Seen(ops, k)
    decreases |ops| - i
  {
    hide Seen;
    if i < |ops| {
      TimesGrow(ops, i + 1, k);
      TimesStep(ops[..i + 1], k);
      assert ops[..i + 1][..i] == ops[..i];
    } else {
      assert ops[..i] == ops;
    }
  }

  /** When everything left is taken out at the end, every key is taken out at most once if and only
      if nothing was ever put under a key that had already been taken out. */
  lemma TakenOnceIffNoLatePut<K(!new)>(ops: seq<Op<K>>, everything: K -> bool)
    requires forall k :: everything(k)
    ensures TakenOnce(Out(ops + [Take(everything)])) <==> NoLatePut(ops)
  {
    hide Times, Out, Held, NoLatePut;
    var all := ops + [Take(everything)];
    forall k
      ensures Times(Out(all), k) == Seen(ops, k)
    {
      TimesOneMore(ops, Take(everything), k);
    }
    if NoLatePut(ops) {
      forall k
        ensures Times(Out(all), k) <= 1
      {
        TimesHeld(ops, k);
      }
    } else {
      var k := LatePutSeenTwice(ops);
      assert Times(Out(all), k) >= 2;
    }
  }

  lemma LatePutSeenTwice<K(!new)>(ops: seq<Op<K>>) returns (k: K)
    requires !NoLatePut(ops)
    ensures Seen(ops, k) >= 2
  {
    hide Times, Out, Add;
    var i :| 0 <= i < |ops| && ops[i].Put? && Times(Out(ops[..i]), ops[i].key) != 0;
    k := ops[i].key;
    var more := ops[..i + 1];
    assert more == ops[..i] + [ops[i]];
    TimesOneMore(ops[..i], ops[i], k);
    HeldAfter(ops[..i], ops[i]);
    AddHas(Held(ops[..i]), k, ops[i].tally);
    TimesGrow(ops, i + 1, k);
  }

  lemma AddHas<K(!new)>(t: Table<K>, k: K, x: Tally)
    ensures k in Add(t, k, x)
  {
  }
}
