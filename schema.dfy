/**
 * The per-field rules of `EmployeeSchema`, the Yup schema the management
 * page validates its Formik form against. Each rule returns the messages of
 * the tests that fail, in the order the schema declares them; Formik shows
 * the first. Formik hands Yup an empty text field as `undefined`, so here the
 * empty string is the absent value. Hire date and salary arrive already
 * converted: a day number and a number, or nothing.
 */
module EmployeeSchema {
  import opened Wrappers
  import opened JsText

  predicate IsAsciiLetter(c: char) {
    ('a' <= c <= 'z') || ('A' <= c <= 'Z')
  }

  predicate IsAsciiDigit(c: char) {
    '0' <= c <= '9'
  }

  predicate IsNameChar(c: char) {
    IsAsciiLetter(c) || IsWhitespace(c)
  }

  /** `/^[a-zA-Z\s]+$/`, stated position by position. */
  ghost predicate MatchesNamePattern(s: string) {
    |s| >= 1 && forall i :: 0 <= i < |s| ==> IsAsciiLetter(s[i]) || IsWhitespace(s[i])
  }

  /** `/^[0-9]{10}$/`, stated position by position. */
  ghost predicate MatchesPhonePattern(s: string) {
    |s| == 10 && forall i :: 0 <= i < |s| ==> IsAsciiDigit(s[i])
  }

  /** The rules shared by both name fields; only the required message is the field's own. */
  function NameRule(v: string, requiredMessage: string, toNumber: string -> JsNumber): (r: seq<string>)
    ensures v == "" ==> r == [requiredMessage]
    ensures r == [] <==>
      toNumber(v).NaN? && MatchesNamePattern(v) && 2 <= |v| <= 50
  {
    if v == "" then [requiredMessage]
    else
      (if toNumber(v).Num? then ["Name cannot be a number"] else []) +
      (if !AllChars(v, IsNameChar) then ["Name must contain only alphabets and spaces"] else []) +
      (if |v| < 2 then ["Too Short!"] else []) +
      (if |v| > 50 then ["Too Long!"] else [])
  }

  /** The two name fields, which share every rule but the required message. */
  datatype NameField = FirstName | LastName

  /** The required messages as the schema declares them: both fields say "First name". */
  function RequiredMessageAsWritten(f: NameField): string {
    "First name is required"
  }

  /** The required messages the fields evidently intend. */
  function RequiredMessage(f: NameField): string {
    match f
    case FirstName => "First name is required"
    case LastName => "Last name is required"
  }

  /** A missing last name is reported exactly as a missing first name is. */
  lemma MissingLastNameReadsAsFirstName(toNumber: string -> JsNumber)
    ensures NameRule("", RequiredMessageAsWritten(LastName), toNumber) ==
            NameRule("", RequiredMessageAsWritten(FirstName), toNumber) == ["First name is required"]
  {
  }

  /** `first_name` and `last_name` with the corrected messages. */
  function NameFieldRule(f: NameField, v: string, toNumber: string -> JsNumber): (r: seq<string>)
    ensures v == "" ==> r == [RequiredMessage(f)]
    ensures r == [] <==> toNumber(v).NaN? && MatchesNamePattern(v) && 2 <= |v| <= 50
  {
    NameRule(v, RequiredMessage(f), toNumber)
  }

  /**
   * With the corrected messages a missing name says which field is missing,
   * and the correction accepts and rejects exactly the names the declared
   * schema does, with the same messages for a name that is present.
   */
  lemma CorrectedMessagesNameTheField(f: NameField, v: string, toNumber: string -> JsNumber)
    ensures NameFieldRule(FirstName, "", toNumber) != NameFieldRule(LastName, "", toNumber)
    ensures NameFieldRule(f, v, toNumber) == [] <==> NameRule(v, RequiredMessageAsWritten(f), toNumber) == []
    ensures v != "" ==> NameFieldRule(f, v, toNumber) == NameRule(v, RequiredMessageAsWritten(f), toNumber)
  {
  }

  /** `Number` of a text that is only white space (or empty) is 0, as JavaScript defines it. */
  ghost predicate BlankIsZero(toNumber: string -> JsNumber) {
    forall s :: IsBlank(s) ==> toNumber(s) == Num(0.0)
  }

  /**
   * A name the schema accepts is never blank: white space alone passes the
   * pattern, but `isNaN` of it is false, so the number test rejects it.
   */
  lemma AcceptedNameIsNotBlank(v: string, requiredMessage: string, toNumber: string -> JsNumber)
    requires BlankIsZero(toNumber)
    requires NameRule(v, requiredMessage, toNumber) == []
    ensures !IsBlank(v)
  {
  }

  /** `Yup.string().email(...).required(...)`; the library's email test is the parameter `isEmail`. */
  function EmailRule(v: string, isEmail: string -> bool): (r: seq<string>)
    ensures r == [] <==> v != "" && isEmail(v)
    ensures r == ["Email is required"] <==> v == ""
  {
    if v == "" then ["Email is required"]
    else if !isEmail(v) then ["Invalid email"]
    else []
  }

  function PhoneRule(v: string): (r: seq<string>)
    ensures r == [] <==> MatchesPhonePattern(v)
    ensures r == ["Phone number is required"] <==> v == ""
  {
    if v == "" then ["Phone number is required"]
    else if !(|v| == 10 && AllChars(v, IsAsciiDigit)) then ["Phone number must be 10 digits"]
    else []
  }

  /** `Yup.string().required(message)`, as department and position use it. */
  function RequiredRule(v: string, message: string): (r: seq<string>)
    ensures r == [] <==> v != ""
    ensures r != [] ==> r == [message]
  {
    if v == "" then [message] else []
  }

  /**
   * `Yup.date().max(now, ...).required(...)`, with dates as day numbers; `now`
   * is the moment the schema was built. The hire day itself may be today.
   */
  function HireDateRule(v: Option<int>, now: int): (r: seq<string>)
    ensures r == [] <==> v.Some? && v.value <= now
    ensures r == ["Hire date is required"] <==> v.None?
  {
    match v
    case None => ["Hire date is required"]
    case Some(day) => if day > now then ["Hire date can't be in the future"] else []
  }

  /** `Yup.number().positive(...).required(...)`: zero is not positive. */
  function SalaryRule(v: Option<real>): (r: seq<string>)
    ensures r == [] <==> v.Some? && v.value > 0.0
    ensures r == ["Salary is required"] <==> v.None?
  {
    match v
    case None => ["Salary is required"]
    case Some(x) => if x <= 0.0 then ["Salary must be positive"] else []
  }
}
