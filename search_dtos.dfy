/** The request types of the advanced search (AdvancedSearchRequestDto,
    AdvancedSearchConditionDto, AdvancedRangeDto) with their defaults.

    C# `null` is kept as `Option` only where the engine treats it differently
    from "": an Operator of null means "equals" while "" falls to the default
    branch of every operator switch. For every other string member the engine
    treats null and "" alike (`?.Trim()` then IsNullOrEmpty, IsNullOrWhiteSpace,
    `?? ""`, `?? "bytes"`, `?? "date"`, `?? "desc"`), so null is written "" here;
    a null Values list behaves as an empty one, and a null entry in it as "". */
module SearchDtos {
  import opened Wrappers
  import opened Base

  datatype Range = Range(from: string, to: string)

  datatype Condition = Condition(
    field: string,
    op: Option<string>,
    value: string,
    secondaryValue: string,
    values: seq<string>,
    range: Option<Range>,
    metadataField: string,
    metadataLabel: string,
    unit: string)

  /** `conditions` may hold null entries (a JSON `null`), hence Option. */
  datatype Request = Request(
    logic: string,
    conditions: seq<Option<Condition>>,
    sortBy: string,
    sortDir: string,
    page: int,
    pageSize: Option<int>,
    folderId: Option<Guid>)

  /** `new AdvancedSearchConditionDto()`: Field "FileName", Operator "Equals", the rest null. */
  function DefaultCondition(): (c: Condition)
    ensures c.field == "FileName" && c.op == Some("Equals")
    ensures c.value == "" && c.values == [] && c.range.None? && c.metadataField == ""
  {
    Condition("FileName", Some("Equals"), "", "", [], None, "", "", "")
  }

  /** `new AdvancedSearchRequestDto()`: Logic "AND", no conditions, page 1, the rest null. */
  function DefaultRequest(): (r: Request)
    ensures r.logic == "AND" && r.conditions == [] && r.page == 1
    ensures r.pageSize.None? && r.folderId.None? && r.sortBy == "" && r.sortDir == ""
  {
    Request("AND", [], "", "", 1, None, None)
  }
}
