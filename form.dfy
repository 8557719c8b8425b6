/**
 * The add/edit employee form: its eight text fields, the hand-written
 * validator that collects one error per field, the change handler, the
 * submit handler's state updates, and the loading of an existing employee.
 * The `onSubmit` callback's answer and the JavaScript number coercions are
 * parameters.
 */
module Form {
  import opened Wrappers
  import opened JsText

  /** The form's eight inputs, by their `name` attribute. */
  datatype Field = FirstName | LastName | Email | Phone | Department | Position | HireDate | Salary

  /** `formData`: the text of every input. */
  datatype FormData = FormData(
    firstName: string,
    lastName: string,
    email: string,
    phone: string,
    department: string,
    position: string,
    hireDate: string,
    salary: string)
  {
    /** `formData[name]`. */
    function Get(f: Field): string {
      match f
      case FirstName => firstName
      case LastName => lastName
      case Email => email
      case Phone => phone
      case Department => department
      case Position => position
      case HireDate => hireDate
      case Salary => salary
    }

    /** `{...formData, [name]: value}`: the named field replaced, every other field kept. */
    function With(f: Field, v: string): (d: FormData)
      ensures forall g :: d.Get(g) == if g == f then v else Get(g)
    {
      match f
      case FirstName => this.(firstName := v)
      case LastName => this.(lastName := v)
      case Email => this.(email := v)
      case Phone => this.(phone := v)
      case Department => this.(department := v)
      case Position => this.(position := v)
      case HireDate => this.(hireDate := v)
      case Salary => this.(salary := v)
    }
  }

  /** The empty form the add mode starts from and returns to. */
  function Blank(): (d: FormData)
    ensures forall f :: d.Get(f) == ""
  {
    FormData("", "", "", "", "", "", "", "")
  }

  /** A key of the `errors` object: a field's name, or `submit` for the server's answer. */
  datatype ErrorKey = On(field: Field) | Submit

  /** What `onSubmit` resolves to. */
  datatype SubmitResult = SubmitResult(success: bool, error: string)

  /** What `onSubmit` is called with: the form's text, with the salary parsed by `parseFloat`. */
  datatype SubmitData = SubmitData(fields: FormData, salary: JsNumber)

  /** `s.split('T')[0]`: the text before the first `T`, or all of it. */
  function DatePart(s: string): (r: string)
    ensures |r| <= |s| && r == s[..|r|]
    ensures 'T' !in r
    ensures |r| < |s| ==> s[|r|] == 'T'
  {
    if s == [] || s[0] == 'T' then [] else [s[0]] + DatePart(s[1..])
  }

  /** An ISO timestamp's date part is recovered exactly, whatever the time part. */
  lemma {:induction false} DatePartOfTimestamp(date: string, time: string)
    requires 'T' !in date
    ensures DatePart(date + "T" + time) == date
  {
    if date != [] {
      assert (date + "T" + time)[1..] == date[1..] + "T" + time;
      DatePartOfTimestamp(date[1..], time);
    }
  }

  /** Truncating a second time changes nothing. */
  lemma DatePartIdempotent(s: string)
    ensures DatePart(DatePart(s)) == DatePart(s)
  {
    DatePartWithoutT(DatePart(s));
  }

  /** Text without a `T` is kept whole. */
  lemma {:induction false} DatePartWithoutT(s: string)
    requires 'T' !in s
    ensures DatePart(s) == s
  {
    if s != [] {
      assert s[0] in s;
      assert forall c :: c in s[1..] ==> c in s;
      DatePartWithoutT(s[1..]);
    }
  }

  /** The form's content after the effect runs for the `employee` prop. */
  function Loaded(employee: Option<FormData>): (d: FormData)
    ensures employee.None? ==> d == Blank()
    ensures employee.Some? ==>
      d.hireDate == DatePart(employee.value.hireDate) &&
      forall f :: f != HireDate ==> d.Get(f) == employee.value.Get(f)
  {
    match employee
    case None => Blank()
    case Some(e) => e.With(HireDate, DatePart(e.hireDate))
  }

  predicate IsNonSpace(c: char) {
    !IsWhitespace(c)
  }

  /**
   * `/\S+@\S+\.\S+/.test(s)`, stated as the pattern reads: some stretch
   * `s[i..j]` is a run of non-space characters, `@`, another such run, `.`,
   * and a third.
   */
  ghost predicate MatchesEmailPattern(s: string) {
    exists i, p, q, j :: PatternAt(s, i, p, q, j)
  }

  /** Every character of `s[lo..hi]` is non-space. */
  predicate NonSpaceRun(s: string, lo: int, hi: int)
    requires 0 <= lo <= hi <= |s|
  {
    forall k :: lo <= k < hi ==> IsNonSpace(s[k])
  }

  /** `s[i..j]` reads: non-space run, `@` at `p`, non-space run, `.` at `q`, non-space run. */
  predicate PatternAt(s: string, i: int, p: int, q: int, j: int) {
    0 <= i < p && p + 1 < q && q + 1 < j <= |s| &&
    s[p] == '@' && s[q] == '.' &&
    NonSpaceRun(s, i, p) && NonSpaceRun(s, p + 1, q) && NonSpaceRun(s, q + 1, j)
  }

  /** An `@` at `p` and a `.` at `q` with non-space text before, between and after. */
  predicate EmailShapeAt(s: string, p: int, q: int) {
    0 < p && p + 1 < q && q + 1 < |s| &&
    s[p] == '@' && s[q] == '.' &&
    IsNonSpace(s[p - 1]) && IsNonSpace(s[q + 1]) &&
    AllChars(s[p + 1..q], IsNonSpace)
  }

  /** The regular-expression test as the validator runs it. */
  predicate HasEmailShape(s: string) {
    exists p, q | 0 <= p < |s| && 0 <= q < |s| :: EmailShapeAt(s, p, q)
  }

  /** Searching for an `@` and a `.` this way is exactly the pattern's test. */
  lemma HasEmailShapeMatchesPattern(s: string)
    ensures HasEmailShape(s) <==> MatchesEmailPattern(s)
  {
    if HasEmailShape(s) {
      var p, q :| 0 <= p < |s| && 0 <= q < |s| && EmailShapeAt(s, p, q);
      forall k | p < k < q ensures IsNonSpace(s[k]) {
        assert s[p + 1..q][k - p - 1] == s[k];
      }
      assert PatternAt(s, p - 1, p, q, q + 2);
    }
    if MatchesEmailPattern(s) {
      var i, p, q, j :| PatternAt(s, i, p, q, j);
      assert IsNonSpace(s[p - 1]) && IsNonSpace(s[q + 1]);
      var middle := s[p + 1..q];
      forall k | 0 <= k < |middle| ensures IsNonSpace(middle[k]) {
        assert middle[k] == s[p + 1 + k];
      }
      assert EmailShapeAt(s, p, q);
    }
  }

  /** A required text field: blank (empty or white space only) is missing. */
  ghost function TextProblem(value: string, message: string): Option<string> {
    if IsBlank(value) then Some(message) else None
  }

  /** The email: required, then the pattern. */
  ghost function EmailProblem(value: string): Option<string> {
    if IsBlank(value) then Some("Email is required")
    else if !MatchesEmailPattern(value) then Some("Email is invalid")
    else None
  }

  /** A field tested only for being empty; white space counts as present. */
  ghost function ValueProblem(value: string, message: string): Option<string> {
    if value == "" then Some(message) else None
  }

  /** The salary: required, then a number (`isNaN`) whose `parseFloat` is not zero or below. */
  ghost function SalaryProblem(value: string, js: Coercions): Option<string> {
    if value == "" then Some("Salary is required")
    else if js.toNumber(value).NaN? || (js.parseFloat(value).Num? && js.parseFloat(value).value <= 0.0)
    then Some("Salary must be a positive number")
    else None
  }

  /** The one message `validateForm` records for field `f`, if any. */
  ghost function Problem(d: FormData, f: Field, js: Coercions): Option<string> {
    match f
    case FirstName => TextProblem(d.firstName, "First name is required")
    case LastName => TextProblem(d.lastName, "Last name is required")
    case Email => EmailProblem(d.email)
    case Phone => TextProblem(d.phone, "Phone is required")
    case Department => TextProblem(d.department, "Department is required")
    case Position => TextProblem(d.position, "Position is required")
    case HireDate => ValueProblem(d.hireDate, "Hire date is required")
    case Salary => SalaryProblem(d.salary, js)
  }

  /** `m` holds an entry for field `f` exactly when it has a problem, and then its message. */
  ghost predicate ReportsOn(m: map<ErrorKey, string>, d: FormData, f: Field, js: Coercions) {
    (On(f) in m <==> Problem(d, f, js).Some?) &&
    (On(f) in m ==> m[On(f)] == Problem(d, f, js).value)
  }

  /** `m` holds exactly one entry per field with a problem, carrying its message, and nothing else. */
  ghost predicate Reports(m: map<ErrorKey, string>, d: FormData, js: Coercions) {
    Submit !in m && forall f: Field :: ReportsOn(m, d, f, js)
  }

  /** The form is valid when no field has a problem. */
  ghost predicate Acceptable(d: FormData, js: Coercions) {
    forall f: Field :: Problem(d, f, js).None?
  }

  /** A map that reports on a form is empty exactly when the form is acceptable. */
  lemma EmptyReportMeansAcceptable(m: map<ErrorKey, string>, d: FormData, js: Coercions)
    requires Reports(m, d, js)
    ensures m == map[] <==> Acceptable(d, js)
  {
    if Acceptable(d, js) {
      forall k ensures k !in m {
        if k.On? {
          assert k == On(k.field) && Problem(d, k.field, js).None? && ReportsOn(m, d, k.field, js);
        }
      }
      assert m.Keys == {};
    } else {
      var f: Field :| Problem(d, f, js).Some?;
      assert ReportsOn(m, d, f, js);
    }
  }

  /** An empty form is reported on every field. */
  lemma BlankFormReportsEveryField(js: Coercions)
    ensures forall f: Field :: Problem(Blank(), f, js).Some?
  {
  }

  /**
   * A salary of a single space is accepted: `Number(" ")` is 0, so `isNaN`
   * is false, and `parseFloat(" ")` is NaN, which is not `<= 0`.
   */
  lemma SpaceSalaryIsAccepted(d: FormData, js: Coercions)
    requires d.salary == " "
    requires js.toNumber(" ") == Num(0.0) && js.parseFloat(" ") == NaN
    ensures Problem(d, Salary, js).None?
  {
  }

  /** `newErrors[f] = message` when the check found a problem; nothing otherwise. */
  function Noted(m: map<ErrorKey, string>, f: Field, problem: Option<string>): map<ErrorKey, string> {
    if problem.Some? then m[On(f) := problem.value] else m
  }

  /** The position of each field's check in `validateForm`. */
  function Order(f: Field): nat {
    match f
    case FirstName => 0
    case LastName => 1
    case Email => 2
    case Phone => 3
    case Department => 4
    case Position => 5
    case HireDate => 6
    case Salary => 7
  }

  /** Field `f` is reported on if its check comes before position `n`, and has no entry otherwise. */
  ghost predicate ReportedIfChecked(m: map<ErrorKey, string>, d: FormData, js: Coercions, n: nat, f: Field) {
    (Order(f) < n ==> ReportsOn(m, d, f, js)) && (Order(f) >= n ==> On(f) !in m)
  }

  /** `m` reports on exactly the fields checked before position `n`, and holds nothing else. */
  ghost predicate ReportsUpTo(m: map<ErrorKey, string>, d: FormData, js: Coercions, n: nat) {
    Submit !in m && forall f: Field :: ReportedIfChecked(m, d, js, n, f)
  }

  /** Recording the next field's outcome extends what the map reports on by that field. */
  lemma NoteStep(m: map<ErrorKey, string>, d: FormData, js: Coercions, f: Field)
    requires ReportsUpTo(m, d, js, Order(f))
    ensures ReportsUpTo(Noted(m, f, Problem(d, f, js)), d, js, Order(f) + 1)
  {
    var m' := Noted(m, f, Problem(d, f, js));
    forall g: Field
      ensures (Order(g) < Order(f) + 1 ==> ReportsOn(m', d, g, js)) && (Order(g) >= Order(f) + 1 ==> On(g) !in m')
    {
      assert ReportedIfChecked(m, d, js, Order(f), g);
    }
  }

  /** One required-text check of `validateForm`: `if (!value.trim()) newErrors[f] = message`. */
  method RequireText(m: map<ErrorKey, string>, f: Field, value: string, message: string, ghost d: FormData, ghost js: Coercions)
    returns (m': map<ErrorKey, string>)
    requires ReportsUpTo(m, d, js, Order(f))
    requires Problem(d, f, js) == TextProblem(value, message)
    ensures ReportsUpTo(m', d, js, Order(f) + 1)
  {
    NoteStep(m, d, js, f);
    m' := m;
    if Trim(value) == "" {
      m' := m'[On(f) := message];
    }
  }

  /** The hire-date check of `validateForm`: `if (!value) newErrors[f] = message`. */
  method RequireValue(m: map<ErrorKey, string>, f: Field, value: string, message: string, ghost d: FormData, ghost js: Coercions)
    returns (m': map<ErrorKey, string>)
    requires ReportsUpTo(m, d, js, Order(f))
    requires Problem(d, f, js) == ValueProblem(value, message)
    ensures ReportsUpTo(m', d, js, Order(f) + 1)
  {
    NoteStep(m, d, js, f);
    m' := m;
    if value == "" {
      m' := m'[On(f) := message];
    }
  }

  /** The email check of `validateForm`: required first, then the pattern. */
  method CheckEmail(m: map<ErrorKey, string>, d: FormData, ghost js: Coercions) returns (m': map<ErrorKey, string>)
    requires ReportsUpTo(m, d, js, Order(Email))
    ensures ReportsUpTo(m', d, js, Order(Email) + 1)
  {
    NoteStep(m, d, js, Email);
    HasEmailShapeMatchesPattern(d.email);
    m' := m;
    if Trim(d.email) == "" {
      m' := m'[On(Email) := "Email is required"];
    } else if !HasEmailShape(d.email) {
      m' := m'[On(Email) := "Email is invalid"];
    }
  }

  /** The salary check of `validateForm`: required first, then `isNaN` and `parseFloat(...) <= 0`. */
  method CheckSalary(m: map<ErrorKey, string>, d: FormData, js: Coercions) returns (m': map<ErrorKey, string>)
    requires ReportsUpTo(m, d, js, Order(Salary))
    ensures ReportsUpTo(m', d, js, Order(Salary) + 1)
  {
    NoteStep(m, d, js, Salary);
    m' := m;
    if d.salary == "" {
      m' := m'[On(Salary) := "Salary is required"];
    } else if js.toNumber(d.salary).NaN? ||
              (js.parseFloat(d.salary).Num? && js.parseFloat(d.salary).value <= 0.0) {
      m' := m'[On(Salary) := "Salary must be a positive number"];
    }
  }

  /**
   * The body of `validateForm` up to `setErrors`: each field checked in turn,
   * none skipped, and every check's outcome recorded.
   */
  method CollectErrors(d: FormData, js: Coercions) returns (newErrors: map<ErrorKey, string>)
    ensures Reports(newErrors, d, js)
  {
    newErrors := map[];
    newErrors := RequireText(newErrors, FirstName, d.firstName, "First name is required", d, js);
    newErrors := RequireText(newErrors, LastName, d.lastName, "Last name is required", d, js);
    newErrors := CheckEmail(newErrors, d, js);
    newErrors := RequireText(newErrors, Phone, d.phone, "Phone is required", d, js);
    newErrors := RequireText(newErrors, Department, d.department, "Department is required", d, js);
    newErrors := RequireText(newErrors, Position, d.position, "Position is required", d, js);
    newErrors := RequireValue(newErrors, HireDate, d.hireDate, "Hire date is required", d, js);
    newErrors := CheckSalary(newErrors, d, js);
    forall f: Field ensures ReportsOn(newErrors, d, f, js) {
      assert ReportedIfChecked(newErrors, d, js, 8, f);
    }
  }

  /** The form component's state, with the `employee` prop it was last given. */
  class EmployeeForm {
    var employee: Option<FormData>
    var formData: FormData
    var errors: map<ErrorKey, string>
    var isSubmitting: bool

    /** Mounting the form with its `employee` prop; the effect runs once. */
    constructor (employee: Option<FormData>)
      ensures this.employee == employee && formData == Loaded(employee)
      ensures errors == map[] && !isSubmitting
    {
      this.employee := employee;
      formData := Loaded(employee);
      errors := map[];
      isSubmitting := false;
    }

    /** The effect on a new `employee` prop: load it (or blank the form) and clear the errors. */
    method ReceiveEmployee(e: Option<FormData>)
      modifies this`employee, this`formData, this`errors
      ensures employee == e && formData == Loaded(e) && errors == map[]
    {
      employee := e;
      formData := Loaded(e);
      errors := map[];
    }

    /**
     * `handleChange`: the named field takes the typed value and every other
     * field keeps its own; that field's error, if it had a non-empty one,
     * becomes "" and every other error is kept.
     */
    method HandleChange(f: Field, v: string)
      modifies this`formData, this`errors
      ensures formData.Get(f) == v
      ensures forall g :: g != f ==> formData.Get(g) == old(formData).Get(g)
      ensures On(f) in errors ==> errors[On(f)] == ""
      ensures errors.Keys == old(errors).Keys
      ensures forall k :: k in errors && k != On(f) ==> errors[k] == old(errors)[k]
    {
      formData := formData.With(f, v);
      if On(f) in errors && errors[On(f)] != "" {
        errors := errors[On(f) := ""];
      }
    }

    /** `validateForm`: records the collected errors and answers whether there were none. */
    method ValidateForm(js: Coercions) returns (valid: bool)
      modifies this`errors
      ensures Reports(errors, formData, js)
      ensures valid <==> errors == map[]
      ensures valid <==> Acceptable(formData, js)
    {
      errors := CollectErrors(formData, js);
      EmptyReportMeansAcceptable(errors, formData, js);
      valid := |errors| == 0;
      assert errors == map[] <==> |errors| == 0 by {
        if |errors| == 0 {
          assert errors.Keys == {};
        }
      }
    }

    /**
     * `handleSubmit`, with `result` standing for what `onSubmit` resolves to.
     * An unacceptable form records its errors and sends nothing. Otherwise
     * the form's text goes out with the parsed salary; on success the errors
     * are cleared and an add form is blanked while an edit form keeps its
     * text; on failure the only error is the server's, under `submit`.
     */
    method HandleSubmit(js: Coercions, result: SubmitResult) returns (sent: Option<SubmitData>)
      modifies this`formData, this`errors, this`isSubmitting
      ensures sent.None? <==> !Acceptable(old(formData), js)
      ensures sent.None? ==>
        Reports(errors, old(formData), js) && formData == old(formData) &&
        isSubmitting == old(isSubmitting)
      ensures sent.Some? ==>
        sent.value == SubmitData(old(formData), js.parseFloat(old(formData).salary)) && !isSubmitting
      ensures sent.Some? && result.success ==>
        errors == map[] && formData == (if employee.None? then Blank() else old(formData))
      ensures sent.Some? && !result.success ==>
        errors == map[Submit := result.error] && formData == old(formData)
    {
      var valid := ValidateForm(js);
      if !valid {
        return None;
      }
      isSubmitting := true;
      sent := Some(SubmitData(formData, js.parseFloat(formData.salary)));
      if result.success {
        if employee.None? {
          formData := Blank();
        }
        errors := map[];
      } else {
        errors := map[Submit := result.error];
      }
      isSubmitting := false;
    }
  }
}
