/** The base-filter slot (src/BaseFilter.php) of an object that uses it:
    one nullable rule that the setter writes and the getters read. */
module BaseFilters {
  import opened Wrappers
  import FilterRules

  class BaseFilter {
    var baseFilter: Option<FilterRules.Rule>

    /** Initially there is no base filter. */
    constructor ()
      ensures !HasBaseFilter() && GetBaseFilter() == None
    {
      baseFilter := None;
    }

    /** `hasBaseFilter()` holds exactly when `getBaseFilter()` is not null. */
    function HasBaseFilter(): (r: bool)
      reads this
      ensures r <==> GetBaseFilter() != None
    {
      baseFilter.Some?
    }

    function GetBaseFilter(): Option<FilterRules.Rule>
      reads this
    {
      baseFilter
    }

    /** `setBaseFilter(rule)` stores the rule; called without one (null) it
        clears the slot. Returns the same object. */
    method SetBaseFilter(rule: Option<FilterRules.Rule>) returns (self: BaseFilter)
      modifies this
      ensures self == this
      ensures GetBaseFilter() == rule
      ensures HasBaseFilter() <==> rule.Some?
    {
      baseFilter := rule;
      self := this;
    }
  }
}
