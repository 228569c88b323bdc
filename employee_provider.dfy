/** The client's list of employees
    (gestion_conge_frent/src/contexts/EmployeeProvider.tsx): `addEmployee`
    appends to `employees` when the server accepts, and `getEmployeeById`
    picks the first element of the array the server answers. What each
    HTTP call returned is a parameter. */
module EmployeeContext {
  import opened Types

  /** `Omit<Employee, 'id'>`: what the add-employee form submits. */
  datatype EmployeeFields = EmployeeFields(
    name: string,
    email: string,
    department: string,
    leaveAnnual: int,
    leaveSick: int,
    leavePersonal: int)

  /** `Employee` */
  datatype Employee = Employee(
    id: int,
    name: string,
    email: string,
    department: string,
    leaveAnnual: int,
    leaveSick: int,
    leavePersonal: int)

  /** `{ ...employee, id }` */
  function WithId(f: EmployeeFields, id: int): Employee {
    Employee.Employee(id, f.name, f.email, f.department, f.leaveAnnual, f.leaveSick, f.leavePersonal)
  }

  /** How the `POST` of `addEmployee` ended. */
  datatype AddAnswer =
    | EmployeeAdded(id: int)  // res.ok, with the new id
    | AddRefused              // !res.ok
    | AddFailed               // fetch rejected

  /** How the `GET` of `getEmployeeById` ended. The server answers whole
      `users` rows, which the client takes for `Employee`s. */
  datatype LookupAnswer =
    | LookupOk(data: seq<User>)  // res.ok, with the parsed array
    | LookupNotOk                // !res.ok
    | LookupFailed               // fetch rejected

  /** What `getEmployeeById` resolves to: an element, `undefined` (the
      array was empty), or `null` (an error was caught). */
  datatype Lookup = Found(user: User) | Undefined | Null

  /** `getEmployeeById`: `data[0]` of an ok reply, `null` on any error. */
  function GetEmployeeById(answer: LookupAnswer): (r: Lookup)
    ensures r.Null? <==> !answer.LookupOk?
    ensures r.Undefined? <==> answer.LookupOk? && answer.data == []
    ensures r.Found? ==> answer.LookupOk? && answer.data != [] && r.user == answer.data[0]
  {
    match answer
    case LookupOk(data) => if |data| > 0 then Found(data[0]) else Undefined
    case _ => Null
  }

  class EmployeeProvider {
    var employees: seq<Employee>

    constructor ()
      ensures employees == []
    {
      employees := [];
    }

    /** `addEmployee`: appends the submitted fields with the server's id;
        any failure is logged and swallowed, leaving the list as it was. */
    method AddEmployee(f: EmployeeFields, answer: AddAnswer)
      modifies this
      ensures employees == if answer.EmployeeAdded? then old(employees) + [WithId(f, answer.id)]
                           else old(employees)
    {
      if !answer.EmployeeAdded? {
        return;
      }
      var id := answer.id;
      employees := employees + [WithId(f, id)];
    }
  }

  /** A successful add puts exactly one new element at the end: the
      submitted fields under the server's id. */
  lemma AddedEmployeeCarriesFields(s: seq<Employee>, f: EmployeeFields, id: int)
    ensures var s' := s + [WithId(f, id)];
      && |s'| == |s| + 1 && s'[..|s|] == s && s'[|s|].id == id
      && EmployeeFields(s'[|s|].name, s'[|s|].email, s'[|s|].department,
                        s'[|s|].leaveAnnual, s'[|s|].leaveSick, s'[|s|].leavePersonal) == f
  {
  }
}
