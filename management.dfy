/**
 * The management page's filter bar: a substring search on email or phone
 * chosen by a selector, and exact department and position filters whose
 * choices are the distinct values present in the loaded rows.
 */
module EmployeeManagement {
  import opened Records
  import opened JsText
  import Seqs

  /** The search-type selector offers exactly these two fields. */
  datatype SearchType = ByEmail | ByPhone

  /** `employee[searchType]`. */
  function SearchedField(e: Employee, t: SearchType): string {
    match t
    case ByEmail => e.email
    case ByPhone => e.phone
  }

  /** The filter bar's state: search type, search text, department and position choices ("" = all). */
  datatype Query = Query(searchType: SearchType, searchQuery: string, departmentFilter: string, positionFilter: string)

  /** The `filteredEmployees` test: search, department and position conditions all hold. */
  predicate Kept(e: Employee, q: Query) {
    (q.searchQuery == "" || Contains(Lower(SearchedField(e, q.searchType)), Lower(q.searchQuery))) &&
    (q.departmentFilter == "" || e.department == q.departmentFilter) &&
    (q.positionFilter == "" || e.position == q.positionFilter)
  }

  /** `filteredEmployees`: the rows that pass the test, in their original order. */
  function Filtered(employees: seq<Employee>, q: Query): (r: seq<Employee>)
    ensures |r| <= |employees|
    ensures forall i :: 0 <= i < |r| ==> Kept(r[i], q) && r[i] in employees
  {
    Seqs.Filter(employees, (e: Employee) => Kept(e, q))
  }

  /**
   * What the filter bar is meant to select: the chosen field contains the
   * search text up to letter case, and each non-empty category choice equals
   * the row's value exactly.
   */
  ghost predicate Wanted(e: Employee, q: Query) {
    ContainsIgnoringCase(SearchedField(e, q.searchType), q.searchQuery) &&
    (q.departmentFilter != "" ==> e.department == q.departmentFilter) &&
    (q.positionFilter != "" ==> e.position == q.positionFilter)
  }

  /** An empty search text is found in every field. */
  lemma EmptySearchMatches(s: string)
    ensures ContainsIgnoringCase(s, "")
  {
    assert MatchesAtIgnoringCase(s, "", 0);
  }

  /** The filter keeps exactly the wanted rows, each as often as it occurs, and nothing else. */
  lemma FilteredKeepsExactlyWanted(employees: seq<Employee>, q: Query)
    ensures forall e ::
              multiset(Filtered(employees, q))[e] == if Wanted(e, q) then multiset(employees)[e] else 0
  {
    Seqs.FilterCounts(employees, (e: Employee) => Kept(e, q));
    forall e: Employee ensures Kept(e, q) <==> Wanted(e, q) {
      LowerContainsIgnoresCase(SearchedField(e, q.searchType), q.searchQuery);
      EmptySearchMatches(SearchedField(e, q.searchType));
    }
  }

  /** Department and position choices are compared exactly, letter case included. */
  lemma CategoryFiltersAreExact(employees: seq<Employee>, q: Query)
    ensures forall i :: 0 <= i < |Filtered(employees, q)| ==>
              (q.departmentFilter != "" ==> Filtered(employees, q)[i].department == q.departmentFilter) &&
              (q.positionFilter != "" ==> Filtered(employees, q)[i].position == q.positionFilter)
  {
  }

  /** With no search text and no category choice the list is shown as loaded. */
  lemma NoFilterKeepsAll(employees: seq<Employee>, t: SearchType)
    ensures Filtered(employees, Query(t, "", "", "")) == employees
  {
    Seqs.FilterKeepingAll(employees, (e: Employee) => Kept(e, Query(t, "", "", "")));
  }

  /** The filtered list is an order-preserving subsequence of the loaded rows. */
  lemma FilteredPreservesOrder(employees: seq<Employee>, q: Query)
    ensures Seqs.IsSubsequenceOf(Filtered(employees, q), employees)
  {
    Seqs.FilterIsSubsequence(employees, (e: Employee) => Kept(e, q));
  }

  /** `employees.map(get)`. */
  function Column(employees: seq<Employee>, get: Employee -> string): (r: seq<string>)
    ensures |r| == |employees|
    ensures forall i :: 0 <= i < |employees| ==> r[i] == get(employees[i])
  {
    if employees == [] then [] else [get(employees[0])] + Column(employees[1..], get)
  }

  /** `departments`: `[...new Set(employees.map(emp => emp.department))]`. */
  function Departments(employees: seq<Employee>): seq<string> {
    Seqs.Distinct(Column(employees, (e: Employee) => e.department))
  }

  /** `positions`: `[...new Set(employees.map(emp => emp.position))]`. */
  function Positions(employees: seq<Employee>): seq<string> {
    Seqs.Distinct(Column(employees, (e: Employee) => e.position))
  }

  /**
   * The distinct values of a column list every value the column holds, once,
   * and no value it does not hold, in order of first appearance.
   */
  lemma DistinctColumnListsEachValueOnce(employees: seq<Employee>, get: Employee -> string)
    ensures forall v :: v in Seqs.Distinct(Column(employees, get)) <==>
              exists i :: 0 <= i < |employees| && get(employees[i]) == v
    ensures forall i, j :: 0 <= i < j < |Seqs.Distinct(Column(employees, get))| ==>
              Seqs.Distinct(Column(employees, get))[i] != Seqs.Distinct(Column(employees, get))[j]
    ensures forall i, j :: 0 <= i < j < |Seqs.Distinct(Column(employees, get))| ==>
              Seqs.IndexOf(Column(employees, get), Seqs.Distinct(Column(employees, get))[i]) <
              Seqs.IndexOf(Column(employees, get), Seqs.Distinct(Column(employees, get))[j])
  {
    var col := Column(employees, get);
    var d := Seqs.Distinct(col);
    forall v ensures v in d <==> exists i :: 0 <= i < |employees| && get(employees[i]) == v {
      if v in d {
        var k :| 0 <= k < |d| && d[k] == v;
        assert d[k] in col;
      }
      if exists i :: 0 <= i < |employees| && get(employees[i]) == v {
        var i :| 0 <= i < |employees| && get(employees[i]) == v;
        assert col[i] == v;
      }
    }
    Seqs.DistinctInFirstOccurrenceOrder(col);
  }

  /** `departments` holds every department present, once, and nothing else. */
  lemma DepartmentsListEachDepartmentOnce(employees: seq<Employee>)
    ensures forall d :: d in Departments(employees) <==>
              exists i :: 0 <= i < |employees| && employees[i].department == d
    ensures forall i, j :: 0 <= i < j < |Departments(employees)| ==>
              Departments(employees)[i] != Departments(employees)[j]
  {
    DistinctColumnListsEachValueOnce(employees, (e: Employee) => e.department);
  }

  /** `positions` holds every position present, once, and nothing else. */
  lemma PositionsListEachPositionOnce(employees: seq<Employee>)
    ensures forall p :: p in Positions(employees) <==>
              exists i :: 0 <= i < |employees| && employees[i].position == p
    ensures forall i, j :: 0 <= i < j < |Positions(employees)| ==>
              Positions(employees)[i] != Positions(employees)[j]
  {
    DistinctColumnListsEachValueOnce(employees, (e: Employee) => e.position);
  }
}
