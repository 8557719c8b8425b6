/**
 * The one entity of the system: a row of the `employees` table, and the
 * eight columns a create or update request submits.
 */
module Records {

  /**
   * A row of `employees` as the in-memory table keeps it: each column exactly
   * as a POST or PUT submitted it. `hireDate` is text; `salary` is a number
   * (in lakhs per annum). The database's own conversions on storage, such as
   * a DATE read back as timestamp text, are not part of this type.
   */
  datatype Employee = Employee(
    id: int,
    firstName: string,
    lastName: string,
    email: string,
    phone: string,
    department: string,
    position: string,
    hireDate: string,
    salary: real)

  /** The eight non-id columns a POST or PUT body carries. */
  datatype Fields = Fields(
    firstName: string,
    lastName: string,
    email: string,
    phone: string,
    department: string,
    position: string,
    hireDate: string,
    salary: real)

  /** The non-id columns of a row. */
  function FieldsOf(e: Employee): Fields {
    Fields(e.firstName, e.lastName, e.email, e.phone, e.department, e.position, e.hireDate, e.salary)
  }

  /** The row with identifier `id` whose other columns are `f`. */
  function RowOf(id: int, f: Fields): (e: Employee)
    ensures e.id == id && FieldsOf(e) == f
  {
    Employee(id, f.firstName, f.lastName, f.email, f.phone, f.department, f.position, f.hireDate, f.salary)
  }
}
