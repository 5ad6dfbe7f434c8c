/** `Data` (src/Data.php): a string-keyed store of arbitrary values that is
    updated in place. Every mutator returns the same instance. */
module DataStore {
  import opened PhpValues

  class Data {
    /** The stored entries (PHP: the `$data` array). */
    var data: map<string, Value>

    /** A fresh store holds nothing. */
    constructor ()
      ensures data == map[]
      ensures IsEmpty()
    {
      data := map[];
    }

    /** Whether an entry named `name` exists (also when its value is null). */
    function Has(name: string): bool
      reads this
    {
      name in data
    }

    /** `isEmpty()` holds exactly when no name is present. */
    function IsEmpty(): (r: bool)
      reads this
      ensures r <==> forall name :: !Has(name)
    {
      if data == map[] then true
      else
        var name :| name in data;
        assert Has(name);
        false
    }

    /** The value stored under `name`, or `default` when there is none. */
    function Get(name: string, default: Value): (v: Value)
      reads this
      ensures Has(name) ==> v == data[name]
      ensures !Has(name) ==> v == default
    {
      if Has(name) then data[name] else default
    }

    /** Store `value` under `name`; every other entry stays as it was. */
    method Set(name: string, value: Value) returns (self: Data)
      modifies this
      ensures self == this
      ensures data == old(data)[name := value]
      ensures Has(name) && forall d :: Get(name, d) == value
      ensures forall n :: n != name ==> Has(n) == old(Has(n)) && forall d :: Get(n, d) == old(Get(n, d))
    {
      data := data[name := value];
      self := this;
    }

    /** `merge(with)`: every entry of `with` overrides or adds; the entries
        only this store has keep their values. `with` may be this store. */
    method Merge(with: Data) returns (self: Data)
      modifies this
      ensures self == this
      ensures data == old(data) + old(with.data)
      ensures forall n :: n in old(with.data) ==> Has(n) && data[n] == old(with.data)[n]
      ensures forall n :: n !in old(with.data) ==> Has(n) == old(Has(n)) && forall d :: Get(n, d) == old(Get(n, d))
    {
      data := data + with.data;
      self := this;
    }

    /** `clear()` drops every entry. */
    method Clear() returns (self: Data)
      modifies this
      ensures self == this
      ensures IsEmpty() && forall n :: !Has(n)
    {
      data := map[];
      self := this;
    }

    /** PHP's `clone` of a Data object: a new object holding a copy of the
        entries (the array is copied by value). */
    method Copy() returns (c: Data)
      ensures fresh(c)
      ensures c.data == data
    {
      c := new Data();
      c.data := data;
    }
  }

  /** `get(name, d)` ignores its default exactly when the name is present:
      it returns every possible default only for a missing name. */
  lemma GetIgnoresDefaultIffPresent(store: Data, name: string)
    ensures (forall d :: store.Get(name, d) == d) <==> !store.Has(name)
  {
    if store.Has(name) {
      var other := if store.data[name] == Null then Int(0) else Null;
      assert store.Get(name, other) != other;
    }
  }
}
