/**
 * The device's key-value store (AsyncStorage) as an immutable map from
 * string keys to string values. An operation of the application issues a
 * sequence of storage calls; a `Fault` says which of them throws, and the
 * calls before it have taken effect.
 */
module Storage {
  import opened Wrappers

  type Store = map<string, string>

  datatype Op = SetItem(key: string, value: string) | RemoveItem(key: string)

  /** The 0-based index of the storage call that throws, if any. */
  datatype Fault = NoFault | FailsAt(call: nat)

  /** The result of a run of storage calls: the store left behind and whether every call completed. */
  datatype Outcome = Outcome(store: Store, completed: bool)

  /** `getItem`: the stored value, or None (`null`) when the key is absent. */
  function GetItem<V>(s: map<string, V>, key: string): Option<V> {
    if key in s then Some(s[key]) else None
  }

  function Apply(s: Store, op: Op): Store {
    match op
    case SetItem(k, v) => s[k := v]
    case RemoveItem(k) => s - {k}
  }

  /** The keys a sequence of calls touches. */
  function KeysOf(ops: seq<Op>): set<string> {
    if ops == [] then {} else {ops[0].key} + KeysOf(ops[1..])
  }

  /** The calls applied in order. Keys that no call touches keep their entry. */
  function ApplyAll(s: Store, ops: seq<Op>): (r: Store)
    ensures forall k :: k !in KeysOf(ops) ==> GetItem(r, k) == GetItem(s, k)
    decreases |ops|
  {
    if ops == [] then s else ApplyAll(Apply(s, ops[0]), ops[1..])
  }

  /** How many calls complete before the faulty one. */
  function Completed(ops: seq<Op>, fault: Fault): (n: nat)
    ensures n <= |ops|
  {
    match fault
    case NoFault => |ops|
    case FailsAt(c) => if c < |ops| then c else |ops|
  }

  /** No call among the first `calls` throws. */
  predicate Survives(fault: Fault, calls: nat) {
    fault.NoFault? || fault.call >= calls
  }

  /** Issue the calls one after another until one throws. */
  function Run(s: Store, ops: seq<Op>, fault: Fault): (r: Outcome)
    ensures r.completed <==> Survives(fault, |ops|)
    ensures r.completed ==> r.store == ApplyAll(s, ops)
    ensures forall k :: k !in KeysOf(ops) ==> GetItem(r.store, k) == GetItem(s, k)
  {
    var n := Completed(ops, fault);
    KeysOfPrefix(ops, n);
    assert n == |ops| ==> ops[..n] == ops;
    Outcome(ApplyAll(s, ops[..n]), n == |ops|)
  }

  lemma {:induction false} KeysOfPrefix(ops: seq<Op>, n: nat)
    requires n <= |ops|
    ensures KeysOf(ops[..n]) <= KeysOf(ops)
    decreases n
  {
    if n > 0 {
      assert ops[..n][1..] == ops[1..][..n - 1];
      KeysOfPrefix(ops[1..], n - 1);
    }
  }

  predicate AllRemoves(ops: seq<Op>) {
    forall i :: 0 <= i < |ops| ==> ops[i].RemoveItem?
  }

  predicate AllSets(ops: seq<Op>) {
    forall i :: 0 <= i < |ops| ==> ops[i].SetItem?
  }

  /** A run of removals deletes exactly the keys it names. */
  lemma {:induction false} ApplyRemoves(s: Store, ops: seq<Op>)
    requires AllRemoves(ops)
    ensures ApplyAll(s, ops) == s - KeysOf(ops)
    decreases |ops|
  {
    if ops != [] {
      ApplyRemoves(s - {ops[0].key}, ops[1..]);
      assert s - {ops[0].key} - KeysOf(ops[1..]) == s - KeysOf(ops);
    }
  }

  /** The entries a run of writes leaves, later writes winning. */
  function Written(ops: seq<Op>): map<string, string>
    requires AllSets(ops)
  {
    if ops == [] then map[] else map[ops[0].key := ops[0].value] + Written(ops[1..])
  }

  /** A run of writes overlays its entries on the store. */
  lemma {:induction false} ApplySets(s: Store, ops: seq<Op>)
    requires AllSets(ops)
    ensures ApplyAll(s, ops) == s + Written(ops)
    decreases |ops|
  {
    if ops != [] {
      var k, v := ops[0].key, ops[0].value;
      ApplySets(s[k := v], ops[1..]);
      assert s[k := v] + Written(ops[1..]) == s + (map[k := v] + Written(ops[1..]));
    }
  }

  /** Looking up each of four distinct keys after overlaying them. */
  lemma OverlayFour<V>(s: map<string, V>, k1: string, k2: string, k3: string, k4: string, v1: V, v2: V, v3: V, v4: V)
    requires k1 != k2 && k1 != k3 && k1 != k4 && k2 != k3 && k2 != k4 && k3 != k4
    ensures var m := s + (map[k1 := v1] + (map[k2 := v2] + (map[k3 := v3] + map[k4 := v4])));
      && GetItem(m, k1) == Some(v1) && GetItem(m, k2) == Some(v2)
      && GetItem(m, k3) == Some(v3) && GetItem(m, k4) == Some(v4)
  {
  }

  /** Four writes touch their four keys and leave each key with the last value written to it (a later write overlays an earlier one). */
  lemma FourSets(k1: string, k2: string, k3: string, k4: string, v1: string, v2: string, v3: string, v4: string)
    ensures var ops := [SetItem(k1, v1), SetItem(k2, v2), SetItem(k3, v3), SetItem(k4, v4)];
      && AllSets(ops) && KeysOf(ops) == {k1, k2, k3, k4}
      && Written(ops) == map[k1 := v1] + (map[k2 := v2] + (map[k3 := v3] + map[k4 := v4]))
  {
    var a, b, c, d := SetItem(k1, v1), SetItem(k2, v2), SetItem(k3, v3), SetItem(k4, v4);
    var ops := [a, b, c, d];
    assert ops[1..] == [b, c, d];
    assert [b, c, d][1..] == [c, d];
    assert [c, d][1..] == [d];
    assert [d][1..] == [];
    var m4 := map[k4 := v4];
    assert Written([d]) == m4;
    var m3 := map[k3 := v3] + m4;
    assert Written([c, d]) == m3;
    var m2 := map[k2 := v2] + m3;
    assert Written([b, c, d]) == m2;
    assert Written(ops) == map[k1 := v1] + m2;
    assert KeysOf([d]) == {k4};
    assert KeysOf([c, d]) == {k3, k4};
    assert KeysOf([b, c, d]) == {k2, k3, k4};
  }

  /** Four removals touch exactly their four keys. */
  lemma FourRemoves(k1: string, k2: string, k3: string, k4: string)
    ensures var ops := [RemoveItem(k1), RemoveItem(k2), RemoveItem(k3), RemoveItem(k4)];
      AllRemoves(ops) && KeysOf(ops) == {k1, k2, k3, k4}
  {
    var a, b, c, d := RemoveItem(k1), RemoveItem(k2), RemoveItem(k3), RemoveItem(k4);
    var ops := [a, b, c, d];
    assert ops[1..] == [b, c, d];
    assert [b, c, d][1..] == [c, d];
    assert [c, d][1..] == [d];
    assert [d][1..] == [];
    assert KeysOf([d]) == {k4};
    assert KeysOf([c, d]) == {k3, k4};
    assert KeysOf([b, c, d]) == {k2, k3, k4};
  }
}
