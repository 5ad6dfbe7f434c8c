/** A leaf condition object (src/Filter/Condition.php) with its lazily
    created metadata (src/Filter/MetaData.php) and the ignore-case flag that
    Equal, Like and Unlike each declare in the same way
    (src/Filter/Equal.php, src/Filter/Like.php, src/Filter/Unlike.php). */
module FilterConditions {
  import opened PhpValues
  import opened DataStore
  import opened FilterRules

  class Condition {
    /** Which condition class this object is an instance of. */
    const op: Operator
    var column: Column
    var value: Value
    var ignoreCase: bool
    /** The metadata slot; null until `metaData()` is first called. */
    var metaData: Data?

    /** `new Equal(column, value)` and its siblings: column and value are
        set, the flag is off and there is no metadata yet. */
    constructor (op: Operator, column: Column, value: Value)
      ensures this.op == op
      ensures GetColumn() == column && GetValue() == value
      ensures !IgnoresCase() && metaData == null
    {
      this.op := op;
      this.column := column;
      this.value := value;
      this.ignoreCase := false;
      this.metaData := null;
    }

    function GetColumn(): Column
      reads this
    {
      column
    }

    function GetValue(): Value
      reads this
    {
      value
    }

    function IgnoresCase(): bool
      reads this
    {
      ignoreCase
    }

    /** This condition as a node of a filter tree. */
    function AsRule(): (r: Rule)
      reads this
      ensures r.Cond? && r.op == op && r.column == column && r.value == value && r.ignoreCase == ignoreCase
    {
      Cond(op, column, value, ignoreCase)
    }

    /** `setColumn` replaces the column only (any string or list, even an
        empty one) and returns the same object. */
    method SetColumn(column: Column) returns (self: Condition)
      modifies this
      ensures self == this
      ensures GetColumn() == column
      ensures value == old(value) && ignoreCase == old(ignoreCase) && metaData == old(metaData)
    {
      this.column := column;
      self := this;
    }

    /** `setValue` replaces the value only and returns the same object. */
    method SetValue(value: Value) returns (self: Condition)
      modifies this
      ensures self == this
      ensures GetValue() == value
      ensures column == old(column) && ignoreCase == old(ignoreCase) && metaData == old(metaData)
    {
      this.value := value;
      self := this;
    }

    /** `ignoreCase()` switches the flag on; there is no way to switch it
        off, and calling it again changes nothing. */
    method IgnoreCase() returns (self: Condition)
      modifies this
      ensures self == this
      ensures IgnoresCase()
      ensures column == old(column) && value == old(value) && metaData == old(metaData)
      ensures old(ignoreCase) ==> AsRule() == old(AsRule())
    {
      ignoreCase := true;
      self := this;
    }

    /** `metaData()`: the first call installs an empty Data, later calls
        return that same object, so what is written through it stays. */
    method MetaData() returns (d: Data)
      modifies this
      ensures metaData == d
      ensures old(metaData) != null ==> d == old(metaData) && d.data == old(metaData.data)
      ensures old(metaData) == null ==> fresh(d) && d.IsEmpty()
      ensures AsRule() == old(AsRule())
    {
      if metaData == null {
        metaData := new Data();
      }
      d := metaData;
    }

    /** `clone $condition`: a copy of every field, with `__clone` giving the
        copy its own Data when this condition has one. */
    method Clone() returns (c: Condition)
      ensures fresh(c)
      ensures c.AsRule() == AsRule()
      ensures metaData == null ==> c.metaData == null
      ensures metaData != null ==> c.metaData != null && fresh(c.metaData) && c.metaData.data == metaData.data
    {
      c := new Condition(op, column, value);
      c.ignoreCase := ignoreCase;
      if metaData != null {
        c.metaData := metaData.Copy();
      }
    }
  }

  /** Writing into a clone's metadata leaves the original's metadata as it
      was: the clone's Data is a different object. */
  method CloneKeepsMetaDataApart(original: Condition, name: string, v: Value) returns (copy: Condition)
    requires original.metaData != null
    ensures fresh(copy) && copy.metaData != null
    ensures copy.metaData.Has(name) && copy.metaData.Get(name, Null) == v
    ensures original.metaData == old(original.metaData)
    ensures original.metaData.data == old(original.metaData.data)
  {
    copy := original.Clone();
    var cm := copy.MetaData();
    cm := cm.Set(name, v);
  }
}
