/** `OrderIterator` (src/OrderIterator.php): values stored under an internal
    key derived from their order (`order << 8`, probing upwards to the next
    free key) and iterated in ascending key order. */
module OrderIterators {
  import opened Wrappers
  import opened PhpValues

  /** ORDER_PAD_BITS: how far an order is shifted left. */
  const OrderPadBits: nat := 8

  /** `order << ORDER_PAD_BITS` on unbounded integers (no 64-bit overflow). */
  function Pad(order: int): int {
    order * 256
  }

  datatype OrderError =
    | OrderNotInteger(got: Value)   // "$order is not an integer, got %s instead"
    | ParamNotIterable(position: nat) // "Param #%d is not iterable, got %s instead", 1-based

  /** An argument of `extend`: an iterable of (order, value) pairs (an array
      yields its keys as orders), or something that is not iterable. */
  datatype Param = Iterable(pairs: seq<(Value, Value)>) | NotIterable(v: Value)

  ghost function KeysFrom(keys: set<int>, from: int): set<int> {
    set k | k in keys && k >= from
  }

  lemma KeysFromShrinks(keys: set<int>, from: int)
    requires from in keys
    ensures |KeysFrom(keys, from + 1)| < |KeysFrom(keys, from)|
  {
    assert KeysFrom(keys, from) == KeysFrom(keys, from + 1) + {from};
  }

  /** The key the probe loop of `add` ends on: the smallest key at or above
      `from` that is not taken. */
  function FreeSlot(keys: set<int>, from: int): (k: int)
    ensures k >= from && k !in keys
    ensures forall j :: from <= j < k ==> j in keys
    decreases |KeysFrom(keys, from)|
  {
    if from in keys then
      KeysFromShrinks(keys, from);
      FreeSlot(keys, from + 1)
    else from
  }

  /** The keys `isset` reports as taken: present and not holding null. */
  function Taken(values: map<int, Value>): (keys: set<int>)
    ensures forall k :: k in keys <==> k in values && !values[k].Null?
  {
    set k | k in values && !values[k].Null?
  }

  /** The key `add(value, order)` stores under. */
  function Slot(values: map<int, Value>, order: int): int {
    FreeSlot(Taken(values), Pad(order))
  }

  /** The stored map after a successful `add(value, order)`. */
  function Inserted(values: map<int, Value>, order: int, value: Value): map<int, Value> {
    values[Slot(values, order) := value]
  }

  /** `add` never overwrites a value `isset` sees, and the only entry it
      can replace is one holding null. */
  lemma InsertedKeepsTaken(values: map<int, Value>, order: int, value: Value)
    ensures var k := Slot(values, order);
      && Inserted(values, order, value).Keys == values.Keys + {k}
      && (k in values ==> values[k] == Null)
      && forall j :: j in Taken(values) ==> Inserted(values, order, value)[j] == values[j]
  {
  }

  /** Adding the pairs of one iterable in turn; stops at the first key that
      is not an integer, keeping what was added before it. */
  function AddPairs(values: map<int, Value>, pairs: seq<(Value, Value)>): (map<int, Value>, Option<OrderError>)
    decreases |pairs|
  {
    if pairs == [] then (values, None)
    else if !pairs[0].0.Int? then (values, Some(OrderNotInteger(pairs[0].0)))
    else AddPairs(Inserted(values, pairs[0].0.i, pairs[0].1), pairs[1..])
  }

  /** `extend(...params)` from parameter `index` on (0-based); stops at the
      first failure, keeping what was added before it. */
  function ExtendFrom(values: map<int, Value>, params: seq<Param>, index: nat): (map<int, Value>, Option<OrderError>)
    decreases |params|
  {
    if params == [] then (values, None)
    else if params[0].NotIterable? then (values, Some(ParamNotIterable(index + 1)))
    else
      var (vs, err) := AddPairs(values, params[0].pairs);
      if err.Some? then (vs, err) else ExtendFrom(vs, params[1..], index + 1)
  }

  lemma PickKey(keys: set<int>) returns (x: int)
    requires keys != {}
    ensures x in keys
  {
    if forall k :: k !in keys {
      assert false;
    }
    x :| x in keys;
  }

  lemma {:induction false} MinKeyExists(keys: set<int>)
    requires keys != {}
    ensures exists m :: m in keys && forall k :: k in keys ==> m <= k
    decreases keys
  {
    var x := PickKey(keys);
    var rest := keys - {x};
    if exists k :: k in keys && k != x {
      var k :| k in keys && k != x;
      assert k in rest;
      MinKeyExists(rest);
      var r :| r in rest && forall k :: k in rest ==> r <= k;
      var m := if x < r then x else r;
      assert forall k :: k in keys ==> k == x || k in rest;
      assert m in keys && forall k :: k in keys ==> m <= k;
    }
  }

  /** The smallest key of a non-empty set. */
  function MinKey(keys: set<int>): (m: int)
    requires keys != {}
    ensures m in keys && forall k :: k in keys ==> m <= k
  {
    MinKeyExists(keys);
    var m :| m in keys && forall k :: k in keys ==> m <= k;
    m
  }

  /** The keys in ascending order (what `ksort` arranges). */
  function SortedKeys(keys: set<int>): (ks: seq<int>)
    ensures forall k :: k in keys <==> k in ks
    ensures forall i, j :: 0 <= i < j < |ks| ==> ks[i] < ks[j]
    decreases keys
  {
    if keys == {} then []
    else
      var m := MinKey(keys);
      [m] + SortedKeys(keys - {m})
  }

  class OrderIterator {
    /** Added values with their internal order as key. */
    var values: map<int, Value>

    constructor ()
      ensures values == map[]
    {
      values := map[];
    }

    /** `add(value, order)`: a non-integer order is refused and nothing is
        stored; otherwise the value goes under the smallest key at or above
        `order << 8` that `isset` does not report. No non-null entry is
        overwritten; an entry holding null at that key is replaced. */
    method Add(value: Value, order: Value) returns (r: Result<OrderIterator, OrderError>)
      modifies this
      ensures !order.Int? ==> r == Failure(OrderNotInteger(order)) && values == old(values)
      ensures order.Int? ==> r == Success(this) && values == Inserted(old(values), order.i, value)
      ensures order.Int? ==> var k := Slot(old(values), order.i);
        && values.Keys == old(values).Keys + {k}
        && values[k] == value
        && (k in old(values) ==> old(values)[k] == Null)
        && (forall j :: j in old(values) && !old(values)[j].Null? ==> values[j] == old(values)[j])
    {
      if !order.Int? {
        return Failure(OrderNotInteger(order));
      }
      var o := Pad(order.i);
      while o in values && !values[o].Null?
        invariant values == old(values)
        invariant Pad(order.i) <= o
        invariant FreeSlot(Taken(values), o) == Slot(values, order.i)
        decreases |KeysFrom(Taken(values), o)|
      {
        KeysFromShrinks(Taken(values), o);
        o := o + 1;
      }
      values := values[o := value];
      r := Success(this);
    }

    /** `extend(...params)`: each (order, value) pair of each iterable in
        turn is added; a parameter that is not iterable is refused with its
        1-based position, and what was added before the failure stays. */
    method Extend(params: seq<Param>) returns (r: Result<OrderIterator, OrderError>)
      modifies this
      ensures var (vs, err) := ExtendFrom(old(values), params, 0);
        && values == vs
        && (err.None? ==> r == Success(this))
        && (err.Some? ==> r == Failure(err.value))
    {
      var i := 0;
      while i < |params|
        invariant 0 <= i <= |params|
        invariant ExtendFrom(values, params[i..], i) == ExtendFrom(old(values), params, 0)
      {
        var p := params[i];
        if p.NotIterable? {
          return Failure(ParamNotIterable(i + 1));
        }
        ghost var start := values;
        var j := 0;
        while j < |p.pairs|
          invariant 0 <= j <= |p.pairs|
          invariant AddPairs(values, p.pairs[j..]) == AddPairs(start, p.pairs)
        {
          var res := Add(p.pairs[j].1, p.pairs[j].0);
          if res.Failure? {
            return res;
          }
          assert p.pairs[j..][1..] == p.pairs[j + 1..];
          j := j + 1;
        }
        assert params[i..][1..] == params[i + 1..];
        i := i + 1;
      }
      r := Success(this);
    }

    /** `getIterator()`: the values ordered by ascending internal key and
        numbered from 0; the stored map is left as it is. */
    function GetIterator(): (vs: seq<Value>)
      reads this
      ensures |vs| == |SortedKeys(values.Keys)|
      ensures forall i :: 0 <= i < |vs| ==> vs[i] == values[SortedKeys(values.Keys)[i]]
    {
      var ks, stored := SortedKeys(values.Keys), values;
      seq(|ks|, i requires 0 <= i < |ks| => stored[ks[i]])
    }
  }
}

module OrderIteratorProperties {
  import opened Wrappers
  import opened PhpValues
  import opened OrderIterators

  /** The keys already taken in the 256-key band of an order. */
  function Band(keys: set<int>, order: int): set<int> {
    set k | k in keys && Pad(order) <= k < Pad(order) + 256
  }

  /** The `n` consecutive integers from `lo`, with their count. */
  ghost function Interval(lo: int, n: nat): (r: set<int>)
    ensures forall j :: j in r <==> lo <= j < lo + n
    ensures |r| == n
  {
    if n == 0 then {} else Interval(lo, n - 1) + {lo + n - 1}
  }

  lemma FullBand(keys: set<int>, order: int)
    requires forall j :: Pad(order) <= j < Pad(order) + 256 ==> j in keys
    ensures |Band(keys, order)| == 256
  {
    assert Band(keys, order) == Interval(Pad(order), 256);
  }

  /** While fewer than 256 keys of an order's band are taken, `add` places
      the next value of that order inside the band. */
  lemma BandHasRoom(keys: set<int>, order: int)
    requires |Band(keys, order)| < 256
    ensures Pad(order) <= FreeSlot(keys, Pad(order)) < Pad(order) + 256
  {
    var k := FreeSlot(keys, Pad(order));
    if k >= Pad(order) + 256 {
      FullBand(keys, order);
    }
  }

  /** Values added later with the same order land on a larger key than
      earlier ones whose keys stay taken, so iteration keeps their
      insertion order. */
  lemma SameOrderKeepsInsertionOrder(keys: set<int>, later: set<int>, order: int)
    requires keys + {FreeSlot(keys, Pad(order))} <= later
    ensures FreeSlot(later, Pad(order)) > FreeSlot(keys, Pad(order))
  {
    var k1 := FreeSlot(keys, Pad(order));
    var k2 := FreeSlot(later, Pad(order));
    assert k2 < k1 ==> k2 in keys;
  }

  /** A value whose order has room in its band comes before every value of
      a larger order, whenever each was added. */
  lemma SmallerOrderComesFirst(keys1: set<int>, keys2: set<int>, o1: int, o2: int)
    requires o1 < o2
    requires |Band(keys1, o1)| < 256
    ensures FreeSlot(keys1, Pad(o1)) < FreeSlot(keys2, Pad(o2))
  {
    BandHasRoom(keys1, o1);
  }

  /** Position of a key in iteration order: a smaller key is iterated first. */
  lemma SmallerKeyIteratedFirst(keys: set<int>, k1: int, k2: int)
    requires k1 in keys && k2 in keys && k1 < k2
    ensures exists i, j :: 0 <= i < j < |SortedKeys(keys)| && SortedKeys(keys)[i] == k1 && SortedKeys(keys)[j] == k2
  {
    var ks := SortedKeys(keys);
    var i :| 0 <= i < |ks| && ks[i] == k1;
    var j :| 0 <= j < |ks| && ks[j] == k2;
  }

  lemma HeadIsMember(ks: seq<int>)
    requires ks != []
    ensures ks[0] in ks
  {
  }

  /** Any strictly increasing listing of the keys is the sorted one. */
  lemma {:induction false} SortedKeysUnique(keys: set<int>, ks: seq<int>)
    requires forall k :: k in keys <==> k in ks
    requires forall i, j :: 0 <= i < j < |ks| ==> ks[i] < ks[j]
    ensures SortedKeys(keys) == ks
    decreases keys
  {
    if keys == {} {
      if ks != [] {
        HeadIsMember(ks);
        assert false;
      }
    } else {
      var m := MinKey(keys);
      IncreasingListingSplits(keys, ks, m);
      SortedKeysUnique(keys - {m}, ks[1..]);
      assert SortedKeys(keys) == [m] + SortedKeys(keys - {m});
    }
  }

  /** A strictly increasing listing of a non-empty set starts with its
      least element and goes on with a listing of the rest. */
  lemma IncreasingListingSplits(keys: set<int>, ks: seq<int>, m: int)
    requires forall k :: k in keys <==> k in ks
    requires forall i, j :: 0 <= i < j < |ks| ==> ks[i] < ks[j]
    requires m in keys && forall k :: k in keys ==> m <= k
    ensures ks != [] && ks == [m] + ks[1..]
    ensures forall k :: k in keys - {m} <==> k in ks[1..]
    ensures forall i, j :: 0 <= i < j < |ks[1..]| ==> ks[1..][i] < ks[1..][j]
  {
    var i0 :| 0 <= i0 < |ks| && ks[i0] == m;
    assert ks[0] == m by {
      assert ks[0] in keys;
    }
    forall k ensures k in keys - {m} <==> k in ks[1..] {
      if k in ks[1..] {
        var i :| 1 <= i < |ks| && ks[i] == k;
        assert ks[0] < ks[i];
      }
    }
  }

  /** The probe stops at once on a free key. */
  lemma FreeSlotAt(keys: set<int>, from: int)
    requires from !in keys
    ensures FreeSlot(keys, from) == from
  {
  }

  /** The probe moves one key up past a taken key. */
  lemma FreeSlotNext(keys: set<int>, from: int)
    requires from in keys && from + 1 !in keys
    ensures FreeSlot(keys, from) == from + 1
  {
    FreeSlotAt(keys, from + 1);
  }

  /** Three stored keys are iterated in ascending order. */
  lemma SortedKeysOfThree(m: map<int, Value>, a: int, b: int, c: int)
    requires a < b < c && a in m && b in m && c in m
    requires forall k :: k in m ==> k == a || k == b || k == c
    ensures SortedKeys(m.Keys) == [a, b, c]
  {
    SortedKeysUnique(m.Keys, [a, b, c]);
  }

  /** A listing that follows three keys holds their values in that order. */
  lemma ListingOfThree(m: map<int, Value>, ks: seq<int>, vs: seq<Value>, a: int, b: int, c: int)
    requires ks == [a, b, c] && a in m && b in m && c in m
    requires |vs| == |ks| && forall i :: 0 <= i < |vs| ==> vs[i] == m[ks[i]]
    ensures vs == [m[a], m[b], m[c]]
  {
  }

  /** Adding under a free padded order stores the value right there. */
  lemma InsertedAt(values: map<int, Value>, order: int, value: Value, k: int)
    requires Pad(order) == k && k !in Taken(values)
    ensures Inserted(values, order, value) == values[k := value]
  {
    FreeSlotAt(Taken(values), k);
  }

  /** Reusing an order: `add('foo', 4)`, `add('bar', 3)`, `add('oof', 3)`
      iterate as bar, oof, foo. */
  method OrderReuseScenario() returns (vs: seq<Value>)
    ensures vs == [Str("bar"), Str("oof"), Str("foo")]
  {
    var it := new OrderIterator();
    var r := it.Add(Str("foo"), Int(4));
    r := it.Add(Str("bar"), Int(3));
    r := it.Add(Str("oof"), Int(3));
    ghost var m := it.values;
    assert m == map[1024 := Str("foo"), 768 := Str("bar"), 769 := Str("oof")] by {
      var m1 := map[1024 := Str("foo")];
      var m2 := m1[768 := Str("bar")];
      InsertedAt(map[], 4, Str("foo"), 1024);
      InsertedAt(m1, 3, Str("bar"), 768);
      assert 768 in Taken(m2) && 769 !in Taken(m2);
      FreeSlotNext(Taken(m2), 768);
    }
    SortedKeysOfThree(m, 768, 769, 1024);
    vs := it.GetIterator();
    ListingOfThree(m, SortedKeys(m.Keys), vs, 768, 769, 1024);
  }

  /** Distinct orders 4, 3, 2 iterate from the smallest order up. */
  method SortScenario() returns (vs: seq<Value>)
    ensures vs == [Str("oof"), Str("bar"), Str("foo")]
  {
    var it := new OrderIterator();
    var r := it.Add(Str("foo"), Int(4));
    r := it.Add(Str("bar"), Int(3));
    r := it.Add(Str("oof"), Int(2));
    ghost var m := it.values;
    assert m == map[1024 := Str("foo"), 768 := Str("bar"), 512 := Str("oof")] by {
      var m1 := map[1024 := Str("foo")];
      var m2 := m1[768 := Str("bar")];
      InsertedAt(map[], 4, Str("foo"), 1024);
      InsertedAt(m1, 3, Str("bar"), 768);
      InsertedAt(m2, 2, Str("oof"), 512);
    }
    SortedKeysOfThree(m, 512, 768, 1024);
    vs := it.GetIterator();
    ListingOfThree(m, SortedKeys(m.Keys), vs, 512, 768, 1024);
  }

  /** Extending by a generator that yields 42 => 'foo', then 41 => 'bar'
      iterates bar before foo. */
  method GeneratorScenario() returns (vs: seq<Value>)
    ensures vs == [Str("bar"), Str("foo")]
  {
    var it := new OrderIterator();
    var pairs := [(Int(42), Str("foo")), (Int(41), Str("bar"))];
    var r := it.Extend([Iterable(pairs)]);
    var m1 := map[42 * 256 := Str("foo")];
    InsertedAt(map[], 42, Str("foo"), 42 * 256);
    InsertedAt(m1, 41, Str("bar"), 41 * 256);
    assert AddPairs(map[], pairs) == AddPairs(m1, pairs[1..]);
    assert AddPairs(m1, pairs[1..]) == (m1[41 * 256 := Str("bar")], None);
    assert it.values == map[42 * 256 := Str("foo"), 41 * 256 := Str("bar")];
    SortedKeysUnique(it.values.Keys, [41 * 256, 42 * 256]);
    vs := it.GetIterator();
  }

  /** A value stored as null does not hold its key: `add(null, 1)` then
      `add('x', 1)` leaves the single entry `'x'` under key 256. */
  method NullIsOverwrittenScenario() returns (vs: seq<Value>)
    ensures vs == [Str("x")]
  {
    var it := new OrderIterator();
    var r := it.Add(Null, Int(1));
    r := it.Add(Str("x"), Int(1));
    assert it.values == map[256 := Str("x")] by {
      var m1 := map[256 := Null];
      InsertedAt(map[], 1, Null, 256);
      assert 256 !in Taken(m1);
      InsertedAt(m1, 1, Str("x"), 256);
    }
    SortedKeysUnique(it.values.Keys, [256]);
    vs := it.GetIterator();
  }

  /** A non-integer order is refused and leaves the iterator empty. */
  method NonIntegerOrderScenario() returns (r: Result<OrderIterator, OrderError>, vs: seq<Value>)
    ensures r == Failure(OrderNotInteger(Str("bar"))) && vs == []
  {
    var it := new OrderIterator();
    r := it.Add(Str("foo"), Str("bar"));
    SortedKeysUnique(it.values.Keys, []);
    vs := it.GetIterator();
  }
}
