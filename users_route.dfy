/** The `users` table behind the routes of gestion_conge_back/routes/users.js:
    login, profile update, adding an employee, listing employees and looking
    one up. The welcome mail is an opaque notification whose success is the
    parameter `mailOk`; the generated password is a parameter of length 10. */
module UsersRoute {
  import opened Types
  import opened KeyedTable

  /** What `POST /login` answers. */
  datatype LoginReply =
    | LoggedIn(user: User)  // 200, the stored row
    | UnknownEmail          // 401, "Email introuvable"
    | WrongPassword         // 401, "Mot de passe incorrect"

  /** The JSON body of `PUT /:id`. A balance left out of the body is `None`
      and is written as NULL. */
  datatype ProfileBody = ProfileBody(
    name: string,
    email: string,
    department: string,
    leaveAnnual: Option<int>,
    leaveSick: Option<int>,
    leavePersonal: Option<int>,
    password: string)

  /** The JSON body of `POST /employees`. A balance left out of the body is
      `None` and defaults to 0. */
  datatype EmployeeBody = EmployeeBody(
    name: string,
    email: string,
    department: string,
    leaveAnnual: Option<int>,
    leaveSick: Option<int>,
    leavePersonal: Option<int>)

  /** What `POST /employees` answers. Both happen after the insert. */
  datatype AddEmployeeReply =
    | EmployeeCreated(id: int)  // 201, with the new id
    | MailFailed                // 500, "Employé ajouté mais échec d'envoi de l'email."
  {
    /** The HTTP status code of the answer. */
    function Code(): int {
      if EmployeeCreated? then 201 else 500
    }
  }

  /** The number of characters the password generator is asked for. */
  const PasswordLength := 10

  /** The row after `UPDATE users SET` its seven editable columns. */
  function ApplyProfile(u: User, body: ProfileBody): (u': User)
    ensures u'.id == u.id && u'.role == u.role
  {
    u.(name := body.name, email := body.email, department := body.department,
       leaveAnnual := body.leaveAnnual, leaveSick := body.leaveSick,
       leavePersonal := body.leavePersonal, password := body.password)
  }

  /** The row `POST /employees` inserts under `id`. */
  function NewEmployeeRow(id: int, body: EmployeeBody, password: string): User {
    User(password, id, body.name, body.email, Employee, body.department,
         Some(OrZero(body.leaveAnnual)), Some(OrZero(body.leaveSick)), Some(OrZero(body.leavePersonal)))
  }

  /** The key column of `users`. */
  function UserId(u: User): int {
    u.id
  }

  /** `u` is the row with this email that a key-ordered scan meets first. */
  ghost predicate FirstWithEmail(rows: map<int, User>, u: User, email: string) {
    && u.id in rows && rows[u.id] == u && u.email == email
    && forall id :: id in rows && rows[id].email == email ==> u.id <= id
  }

  class UserTable {
    var rows: map<int, User>
    var nextId: int

    /** The table is keyed by each row's own `id`. */
    ghost predicate Valid()
      reads this
    {
      Keyed(rows, nextId, UserId)
    }

    constructor ()
      ensures Valid() && rows == map[] && nextId == 1
    {
      rows := map[];
      nextId := 1;
    }

    /** `POST /login`: the first row with that email, if its password is the
        one given, compared as plain strings. */
    method Login(email: string, password: string) returns (reply: LoginReply)
      requires Valid()
      ensures reply.UnknownEmail? <==> forall id :: id in rows ==> rows[id].email != email
      ensures reply.LoggedIn? ==> FirstWithEmail(rows, reply.user, email) && reply.user.password == password
      ensures forall u :: FirstWithEmail(rows, u, email) ==>
                (u.password == password ==> reply == LoggedIn(u)) && (u.password != password ==> reply == WrongPassword)
    {
      var results := SelectWhere(rows, nextId, UserId, (u: User) => u.email == email);
      if |results| == 0 {
        return UnknownEmail;
      }
      var user := results[0];
      assert FirstWithEmail(rows, user, email) by {
        forall id | id in rows && rows[id].email == email ensures user.id <= id {
          var i :| 0 <= i < |results| && results[i] == rows[id];
          assert i == 0 || results[0].id < results[i].id;
        }
      }
      FirstWithEmailUnique(rows, email, user);
      if user.password != password {
        return WrongPassword;
      }
      reply := LoggedIn(user);
    }

    /** `PUT /:id`: overwrites the seven editable columns of that row and
        answers the reloaded row (nothing for an unknown id). */
    method UpdateProfile(id: int, body: ProfileBody) returns (reloaded: Option<User>)
      requires Valid()
      modifies this
      ensures Valid() && nextId == old(nextId)
      ensures rows == if id in old(rows) then old(rows)[id := ApplyProfile(old(rows)[id], body)] else old(rows)
      ensures reloaded == if id in rows then Some(rows[id]) else None
    {
      if id in rows {
        rows := rows[id := ApplyProfile(rows[id], body)];
      }
      reloaded := if id in rows then Some(rows[id]) else None;
    }

    /** `POST /employees`: inserts an `employee` row with the generated
        password, then mails it; a failed mail answers 500 but the row stays. */
    method AddEmployee(body: EmployeeBody, password: string, mailOk: bool) returns (reply: AddEmployeeReply)
      requires Valid() && |password| == PasswordLength
      modifies this
      ensures Valid() && nextId == old(nextId) + 1 && old(nextId) !in old(rows)
      ensures rows == old(rows)[old(nextId) := NewEmployeeRow(old(nextId), body, password)]
      ensures reply == if mailOk then EmployeeCreated(old(nextId)) else MailFailed
    {
      var id := nextId;
      rows := rows[id := NewEmployeeRow(id, body, password)];
      nextId := nextId + 1;
      if mailOk {
        reply := EmployeeCreated(id);
      } else {
        reply := MailFailed;
      }
    }

    /** `GET /employees`: the rows whose role is `employee`, each once. */
    method ListEmployees() returns (us: seq<User>)
      requires Valid()
      ensures forall i :: 0 <= i < |us| ==> us[i].id in rows && rows[us[i].id] == us[i] && us[i].role == Employee
      ensures forall id :: id in rows && rows[id].role == Employee ==> rows[id] in us
      ensures forall i, j :: 0 <= i < j < |us| ==> us[i] != us[j]
    {
      us := SelectWhere(rows, nextId, UserId, (u: User) => u.role == Employee);
    }

    /** `GET /employees/:id`: the row with that key if it is an employee's;
        a manager's id gives the empty array. */
    function EmployeeById(id: int): (us: seq<User>)
      requires Valid()
      reads this
      ensures |us| <= 1
      ensures forall u :: u in us ==> u.id == id && u.role == Employee && u.id in rows && rows[u.id] == u
      ensures us == [] <==> id !in rows || rows[id].role != Employee
    {
      if id in rows && rows[id].role == Employee then [rows[id]] else []
    }
  }

  /** Only one row can be the first with a given email. */
  lemma FirstWithEmailUnique(rows: map<int, User>, email: string, u: User)
    requires FirstWithEmail(rows, u, email)
    ensures forall v :: FirstWithEmail(rows, v, email) ==> v == u
  {
  }

  // ---------------------------------------------------------------------
  // Properties of the table as the handlers leave it.

  /** The profile update overwrites every editable column: the new row
      depends on the old one only through its id and role. */
  lemma ProfileOverwritesAll(u: User, v: User, body: ProfileBody)
    requires u.id == v.id && u.role == v.role
    ensures ApplyProfile(u, body) == ApplyProfile(v, body)
    ensures ApplyProfile(u, body).email == body.email && ApplyProfile(u, body).password == body.password
  {
  }

  /** After a profile update, the new email and password log that user in,
      provided no row with a smaller key has the same email. */
  lemma ProfileThenLogin(rows: map<int, User>, id: int, body: ProfileBody)
    requires id in rows && rows[id].id == id
    requires forall k :: k in rows && k < id ==> rows[k].email != body.email
    ensures var rows' := rows[id := ApplyProfile(rows[id], body)];
      FirstWithEmail(rows', rows'[id], body.email) && rows'[id].password == body.password
  {
  }

  /** An added row is always an employee, whatever the form says, with each
      missing balance at 0 and a password of the generator's length. */
  lemma NewEmployeeIsEmployee(id: int, body: EmployeeBody, password: string)
    requires |password| == PasswordLength
    ensures var u := NewEmployeeRow(id, body, password);
      && u.role == Employee && |u.password| == 10
      && u.leaveAnnual == Some(if body.leaveAnnual.Some? then body.leaveAnnual.value else 0)
      && u.leaveSick == Some(if body.leaveSick.Some? then body.leaveSick.value else 0)
      && u.leavePersonal == Some(if body.leavePersonal.Some? then body.leavePersonal.value else 0)
  {
  }
}
