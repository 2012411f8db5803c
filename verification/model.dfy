/** The records the stores hold: model/Employee.java and model/Company.java. */
module Model {

  /** An employee record; the id is assigned by the caller. */
  datatype Employee = Employee(id: int, name: string, age: int, gender: string, salary: int)

  /**
   * A company record. `employeeNumber` is a declared headcount kept apart from
   * `employees`: nothing ties it to the length of the embedded list.
   */
  datatype Company = Company(id: int, companyName: string, employeeNumber: int, employees: seq<Employee>)

  /** The ids of a list of employees, in list order. */
  function Ids(s: seq<Employee>): (r: seq<int>)
    ensures |r| == |s| && forall k :: 0 <= k < |s| ==> r[k] == s[k].id
  {
    seq(|s|, k requires 0 <= k < |s| => s[k].id)
  }

  /** String.toLowerCase on one character, restricted to ASCII letters. */
  function LowerChar(c: char): char
  {
    if 'A' <= c <= 'Z' then (c as int - 'A' as int + 'a' as int) as char else c
  }

  /** String.toLowerCase, restricted to ASCII: every letter A-Z becomes a-z, nothing else changes. */
  function Lower(s: string): (r: string)
    ensures |r| == |s|
    ensures forall i :: 0 <= i < |s| ==> r[i] == LowerChar(s[i])
  {
    if s == [] then [] else [LowerChar(s[0])] + Lower(s[1..])
  }

  /** Lower-casing twice is lower-casing once: a query already in lower case is unchanged by it. */
  lemma LowerIdempotent(s: string)
    ensures Lower(Lower(s)) == Lower(s)
  {
    assert forall i :: 0 <= i < |s| ==> Lower(Lower(s))[i] == Lower(s)[i];
  }

  /** The test of findById's filter on employees. */
  function EmployeeIdIs(id: int): Employee -> bool
  {
    (e: Employee) => e.id == id
  }

  /** The test of findById's filter on companies. */
  function CompanyIdIs(id: int): Company -> bool
  {
    (c: Company) => c.id == id
  }

  /** The test of findByGender's filter: ASCII equals-ignore-case, character by character. */
  function GenderIs(gender: string): (r: Employee -> bool)
    ensures forall e: Employee :: r(e) <==>
      |e.gender| == |gender| && forall i :: 0 <= i < |gender| ==> LowerChar(e.gender[i]) == LowerChar(gender[i])
  {
    (e: Employee) => Lower(e.gender) == Lower(gender)
  }
}
