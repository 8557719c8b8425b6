/**
 * The employee list view: the free-text search over five fields, the sort
 * of a copy of the search result by a clicked column, and the two pieces of
 * view state (`sortBy`, `sortOrder`) that header clicks update.
 */
module EmployeeList {
  import opened Records
  import opened JsText
  import Seqs

  /**
   * The search test of `filteredEmployees`: the lowercased term occurs in the
   * lowercased first name, last name, email, department or position.
   */
  predicate MatchesSearch(e: Employee, term: string) {
    var t := Lower(term);
    Contains(Lower(e.firstName), t) || Contains(Lower(e.lastName), t) ||
    Contains(Lower(e.email), t) || Contains(Lower(e.department), t) ||
    Contains(Lower(e.position), t)
  }

  /** `filteredEmployees`: the rows that pass the search test, in their original order. */
  function Search(employees: seq<Employee>, term: string): (r: seq<Employee>)
    ensures |r| <= |employees|
    ensures forall i :: 0 <= i < |r| ==> MatchesSearch(r[i], term) && r[i] in employees
  {
    Seqs.Filter(employees, (e: Employee) => MatchesSearch(e, term))
  }

  /** The search's intent: one of the five fields contains the term, letter case disregarded. */
  ghost predicate Found(e: Employee, term: string) {
    ContainsIgnoringCase(e.firstName, term) || ContainsIgnoringCase(e.lastName, term) ||
    ContainsIgnoringCase(e.email, term) || ContainsIgnoringCase(e.department, term) ||
    ContainsIgnoringCase(e.position, term)
  }

  /** The search keeps exactly the found rows, each as often as it occurs, and nothing else. */
  lemma SearchKeepsExactlyTheFound(employees: seq<Employee>, term: string)
    ensures forall e ::
              multiset(Search(employees, term))[e] == if Found(e, term) then multiset(employees)[e] else 0
  {
    Seqs.FilterCounts(employees, (e: Employee) => MatchesSearch(e, term));
    forall e: Employee ensures MatchesSearch(e, term) <==> Found(e, term) {
      LowerContainsIgnoresCase(e.firstName, term);
      LowerContainsIgnoresCase(e.lastName, term);
      LowerContainsIgnoresCase(e.email, term);
      LowerContainsIgnoresCase(e.department, term);
      LowerContainsIgnoresCase(e.position, term);
    }
  }

  /** The phone number plays no part in the search. */
  lemma SearchIgnoresPhone(e: Employee, phone: string, term: string)
    ensures MatchesSearch(e.(phone := phone), term) == MatchesSearch(e, term)
  {
  }

  /** An empty search term keeps every row, in order. */
  lemma EmptySearchKeepsAll(employees: seq<Employee>)
    ensures Search(employees, "") == employees
  {
    forall i | 0 <= i < |employees| ensures MatchesSearch(employees[i], "") {
      EmptyIsContained(Lower(employees[i].firstName));
    }
    Seqs.FilterKeepingAll(employees, (e: Employee) => MatchesSearch(e, ""));
  }

  /** The search result is an order-preserving subsequence of the rows. */
  lemma SearchPreservesOrder(employees: seq<Employee>, term: string)
    ensures Seqs.IsSubsequenceOf(Search(employees, term), employees)
  {
    Seqs.FilterIsSubsequence(employees, (e: Employee) => MatchesSearch(e, term));
  }

  /** The columns whose headers sort the list. */
  datatype SortField = FirstName | Email | Department | Position | Salary

  datatype SortOrder = Asc | Desc

  /** `a[sortBy] < b[sortBy]`: text columns compare lexicographically, salary numerically. */
  predicate KeyLess(a: Employee, b: Employee, field: SortField) {
    match field
    case FirstName => StrLess(a.firstName, b.firstName)
    case Email => StrLess(a.email, b.email)
    case Department => StrLess(a.department, b.department)
    case Position => StrLess(a.position, b.position)
    case Salary => a.salary < b.salary
  }

  /** `a[sortBy] === b[sortBy]`. */
  predicate SameKey(a: Employee, b: Employee, field: SortField) {
    match field
    case FirstName => a.firstName == b.firstName
    case Email => a.email == b.email
    case Department => a.department == b.department
    case Position => a.position == b.position
    case Salary => a.salary == b.salary
  }

  /**
   * The comparator handed to `sort`: a positive answer puts `a` after `b`.
   * It answers 1 or -1 and never 0, so rows with equal keys may come out in
   * either order.
   */
  function Compare(a: Employee, b: Employee, field: SortField, order: SortOrder): (r: int)
    ensures r == 1 || r == -1
  {
    match order
    case Asc => if KeyLess(b, a, field) then 1 else -1
    case Desc => if KeyLess(a, b, field) then 1 else -1
  }

  /** Every row may stand before every later row by the comparator. */
  predicate SortedBy(s: seq<Employee>, field: SortField, order: SortOrder) {
    forall i, j :: 0 <= i < j < |s| ==> Compare(s[i], s[j], field, order) < 0
  }

  lemma KeyLessIrreflexive(a: Employee, field: SortField)
    ensures !KeyLess(a, a, field)
  {
    match field
    case FirstName => StrLessIrreflexive(a.firstName);
    case Email => StrLessIrreflexive(a.email);
    case Department => StrLessIrreflexive(a.department);
    case Position => StrLessIrreflexive(a.position);
    case Salary =>
  }

  lemma KeyLessTransitive(a: Employee, b: Employee, c: Employee, field: SortField)
    requires KeyLess(a, b, field) && KeyLess(b, c, field)
    ensures KeyLess(a, c, field)
  {
    match field
    case FirstName => StrLessTransitive(a.firstName, b.firstName, c.firstName);
    case Email => StrLessTransitive(a.email, b.email, c.email);
    case Department => StrLessTransitive(a.department, b.department, c.department);
    case Position => StrLessTransitive(a.position, b.position, c.position);
    case Salary =>
  }

  /** Two rows whose keys differ are ordered one way or the other. */
  lemma KeyLessTotal(a: Employee, b: Employee, field: SortField)
    requires !SameKey(a, b, field)
    ensures KeyLess(a, b, field) || KeyLess(b, a, field)
  {
    match field
    case FirstName => StrLessTotal(a.firstName, b.firstName);
    case Email => StrLessTotal(a.email, b.email);
    case Department => StrLessTotal(a.department, b.department);
    case Position => StrLessTotal(a.position, b.position);
    case Salary =>
  }

  /** When the comparator puts `a` after `b`, `b` may stand before `a`. */
  lemma CompareAntisymmetric(a: Employee, b: Employee, field: SortField, order: SortOrder)
    requires Compare(a, b, field, order) > 0
    ensures Compare(b, a, field, order) < 0
  {
    KeyLessIrreflexive(a, field);
    if KeyLess(a, b, field) && KeyLess(b, a, field) {
      KeyLessTransitive(a, b, a, field);
    }
  }

  /** "May stand before" is transitive. */
  lemma CompareTransitive(a: Employee, b: Employee, c: Employee, field: SortField, order: SortOrder)
    requires Compare(a, b, field, order) < 0 && Compare(b, c, field, order) < 0
    ensures Compare(a, c, field, order) < 0
  {
    if order == Asc {
      if !SameKey(a, b, field) {
        KeyLessTotal(a, b, field);
      }
      if KeyLess(c, a, field) && KeyLess(a, b, field) {
        KeyLessTransitive(c, a, b, field);
      }
    } else {
      if !SameKey(b, c, field) {
        KeyLessTotal(b, c, field);
      }
      if KeyLess(a, c, field) && KeyLess(c, b, field) {
        KeyLessTransitive(a, c, b, field);
      }
    }
  }

  /**
   * When the keys of the sorted rows are pairwise distinct, ascending order
   * gives strictly increasing keys and descending order strictly decreasing ones.
   */
  lemma SortedDistinctKeysAreStrict(s: seq<Employee>, field: SortField, order: SortOrder)
    requires SortedBy(s, field, order)
    requires forall i, j :: 0 <= i < j < |s| ==> !SameKey(s[i], s[j], field)
    ensures order == Asc ==> forall i, j :: 0 <= i < j < |s| ==> KeyLess(s[i], s[j], field)
    ensures order == Desc ==> forall i, j :: 0 <= i < j < |s| ==> KeyLess(s[j], s[i], field)
  {
    forall i, j | 0 <= i < j < |s|
      ensures order == Asc ==> KeyLess(s[i], s[j], field)
      ensures order == Desc ==> KeyLess(s[j], s[i], field)
    {
      KeyLessTotal(s[i], s[j], field);
    }
  }

  /** The first `n` rows are in comparator order. */
  ghost predicate SortedPrefix(s: seq<Employee>, n: int, field: SortField, order: SortOrder) {
    forall k, l :: 0 <= k < l < n && l < |s| ==> Compare(s[k], s[l], field, order) < 0
  }

  /** The first `n` rows are in comparator order once the row at `hole` is set aside. */
  ghost predicate SortedExcept(s: seq<Employee>, n: int, hole: int, field: SortField, order: SortOrder) {
    forall k, l :: 0 <= k < l < n && l < |s| && k != hole && l != hole ==> Compare(s[k], s[l], field, order) < 0
  }

  /** The row at `j` may stand before every row after it up to `i`. */
  ghost predicate PrecedesRest(s: seq<Employee>, j: int, i: int, field: SortField, order: SortOrder) {
    0 <= j < |s| && forall l :: j < l <= i && l < |s| ==> Compare(s[j], s[l], field, order) < 0
  }

  /** One swap of the insertion step keeps the rows around the moving row in order, with the hole one place further left. */
  lemma SwapStep(s: seq<Employee>, i: int, j: int, field: SortField, order: SortOrder)
    requires 0 < j <= i < |s|
    requires SortedExcept(s, i + 1, j, field, order)
    requires PrecedesRest(s, j, i, field, order)
    requires Compare(s[j - 1], s[j], field, order) > 0
    ensures SortedExcept(s[j - 1 := s[j]][j := s[j - 1]], i + 1, j - 1, field, order)
    ensures PrecedesRest(s[j - 1 := s[j]][j := s[j - 1]], j - 1, i, field, order)
  {
    var t := s[j - 1 := s[j]][j := s[j - 1]];
    forall k, l | 0 <= k < l < i + 1 && l < |t| && k != j - 1 && l != j - 1
      ensures Compare(t[k], t[l], field, order) < 0
    {
      if l == j {
        assert t[k] == s[k] && t[l] == s[j - 1];
      } else if k == j {
        assert t[k] == s[j - 1] && t[l] == s[l];
      } else {
        assert t[k] == s[k] && t[l] == s[l];
      }
    }
    SwapStepMovesHole(s, i, j, field, order);
  }

  /** After the swap the moving row may stand before every row it has passed and every row after it. */
  lemma SwapStepMovesHole(s: seq<Employee>, i: int, j: int, field: SortField, order: SortOrder)
    requires 0 < j <= i < |s|
    requires PrecedesRest(s, j, i, field, order)
    requires Compare(s[j - 1], s[j], field, order) > 0
    ensures PrecedesRest(s[j - 1 := s[j]][j := s[j - 1]], j - 1, i, field, order)
  {
    var t := s[j - 1 := s[j]][j := s[j - 1]];
    CompareAntisymmetric(s[j - 1], s[j], field, order);
    forall l | j - 1 < l <= i && l < |t| ensures Compare(t[j - 1], t[l], field, order) < 0 {
      if l != j {
        assert t[l] == s[l];
      }
    }
  }

  /** When the inserted row stops moving, the prefix through `i` is in order. */
  lemma InsertDone(s: seq<Employee>, i: int, j: int, field: SortField, order: SortOrder)
    requires 0 <= j <= i < |s|
    requires SortedExcept(s, i + 1, j, field, order)
    requires PrecedesRest(s, j, i, field, order)
    requires j > 0 ==> Compare(s[j - 1], s[j], field, order) < 0
    ensures SortedPrefix(s, i + 1, field, order)
  {
    forall k | 0 <= k < j - 1 ensures Compare(s[k], s[j], field, order) < 0 {
      CompareTransitive(s[k], s[j - 1], s[j], field, order);
    }
  }

  /** Exchanges two rows of `a`, keeping the same rows. */
  method Swap(a: array<Employee>, i: int, j: int)
    requires 0 <= i < j < a.Length
    modifies a
    ensures a[..] == old(a[..])[i := old(a[j])][j := old(a[i])]
    ensures multiset(a[..]) == multiset(old(a[..]))
  {
    a[i], a[j] := a[j], a[i];
  }

  /** Moves `a[i]` down into the sorted prefix `a[..i]` by swaps with its left neighbour. */
  method Insert(a: array<Employee>, i: int, field: SortField, order: SortOrder)
    requires 0 <= i < a.Length
    requires SortedPrefix(a[..], i, field, order)
    modifies a
    ensures SortedPrefix(a[..], i + 1, field, order)
    ensures multiset(a[..]) == multiset(old(a[..]))
    ensures a[i + 1..] == old(a[i + 1..])
  {
    var j := i;
    while j > 0 && Compare(a[j - 1], a[j], field, order) > 0
      invariant 0 <= j <= i
      invariant SortedExcept(a[..], i + 1, j, field, order)
      invariant PrecedesRest(a[..], j, i, field, order)
      invariant multiset(a[..]) == multiset(old(a[..]))
      invariant a[i + 1..] == old(a[i + 1..])
    {
      SwapStep(a[..], i, j, field, order);
      Swap(a, j - 1, j);
      j := j - 1;
    }
    InsertDone(a[..], i, j, field, order);
  }

  /** Insertion sort of `a` in place, driven by the comparator. */
  method SortInPlace(a: array<Employee>, field: SortField, order: SortOrder)
    modifies a
    ensures SortedBy(a[..], field, order)
    ensures multiset(a[..]) == multiset(old(a[..]))
  {
    var i := 0;
    while i < a.Length
      invariant 0 <= i <= a.Length
      invariant SortedPrefix(a[..], i, field, order)
      invariant multiset(a[..]) == multiset(old(a[..]))
    {
      Insert(a, i, field, order);
      i := i + 1;
    }
  }

  /** `sortedEmployees`: a sorted copy of the search result; the input is left as it is. */
  method SortedCopy(s: seq<Employee>, field: SortField, order: SortOrder) returns (r: seq<Employee>)
    ensures multiset(r) == multiset(s)
    ensures SortedBy(r, field, order)
  {
    var a := new Employee[|s|](i requires 0 <= i < |s| => s[i]);
    assert a[..] == s;
    SortInPlace(a, field, order);
    r := a[..];
  }

  /** The other sort direction. */
  function Flipped(o: SortOrder): (r: SortOrder)
    ensures r != o
  {
    if o == Asc then Desc else Asc
  }

  /** The list component's state: the search box and the sort column and direction. */
  class ListView {
    var searchTerm: string
    var sortBy: SortField
    var sortOrder: SortOrder

    /** The initial state: empty search, sorted by first name ascending. */
    constructor ()
      ensures searchTerm == "" && sortBy == FirstName && sortOrder == Asc
    {
      searchTerm := "";
      sortBy := FirstName;
      sortOrder := Asc;
    }

    /** Typing in the search box. */
    method SetSearchTerm(term: string)
      modifies this`searchTerm
      ensures searchTerm == term
    {
      searchTerm := term;
    }

    /**
     * `handleSort`: clicking the current column flips the direction;
     * clicking another column selects it, ascending.
     */
    method HandleSort(field: SortField)
      modifies this`sortBy, this`sortOrder
      ensures old(sortBy) == field ==> sortBy == field && sortOrder == Flipped(old(sortOrder))
      ensures old(sortBy) != field ==> sortBy == field && sortOrder == Asc
    {
      if sortBy == field {
        sortOrder := Flipped(sortOrder);
      } else {
        sortBy := field;
        sortOrder := Asc;
      }
    }

    /** The rows the table shows: the search result, sorted by the current column and direction. */
    method Shown(employees: seq<Employee>) returns (rows: seq<Employee>)
      ensures multiset(rows) == multiset(Search(employees, searchTerm))
      ensures SortedBy(rows, sortBy, sortOrder)
    {
      rows := SortedCopy(Search(employees, searchTerm), sortBy, sortOrder);
    }
  }

  /** Clicking the current column's header twice restores the sort state. */
  method ClickCurrentHeaderTwice(view: ListView)
    modifies view
    ensures view.sortBy == old(view.sortBy) && view.sortOrder == old(view.sortOrder)
    ensures view.searchTerm == old(view.searchTerm)
  {
    view.HandleSort(view.sortBy);
    view.HandleSort(view.sortBy);
  }
}
