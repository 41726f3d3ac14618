/** The `users` table behind the handlers: rows keyed by their auto-increment id. */
module Accounts {
  import opened Wrappers

  /** One stored row (backend/internal/models/user.go); `password` holds the bcrypt hash. */
  datatype Account = Account(id: int, username: string, email: string, password: string)

  /** No two rows share an email. */
  ghost predicate EmailsUnique(rows: map<int, Account>) {
    forall i, j :: i in rows && j in rows && rows[i].email == rows[j].email ==> i == j
  }

  /** No two rows share a username. */
  ghost predicate UsernamesUnique(rows: map<int, Account>) {
    forall i, j :: i in rows && j in rows && rows[i].username == rows[j].username ==> i == j
  }

  /** Some row already uses this username or this email, so a unique index refuses the insert. */
  predicate Taken(rows: map<int, Account>, username: string, email: string) {
    exists id :: id in rows && (rows[id].username == username || rows[id].email == email)
  }

  /** The table, updated in place by INSERT and UPDATE statements. */
  class UserTable {
    var rows: map<int, Account>
    var nextId: int

    /** Ids are positive, below the next auto-increment value and stored in their
        row; usernames and emails are unique. */
    ghost predicate Valid()
      reads this
    {
      && 1 <= nextId
      && (forall id :: id in rows ==> 1 <= id < nextId && rows[id].id == id)
      && EmailsUnique(rows)
      && UsernamesUnique(rows)
    }

    constructor ()
      ensures Valid() && rows == map[]
    {
      rows := map[];
      nextId := 1;
    }

    /** `INSERT INTO users (username, email, password)` followed by `LastInsertId`:
        refused on a database fault or a uniqueness violation; otherwise the new row
        gets a fresh id, which is returned. */
    method Insert(username: string, email: string, password: string, fault: bool) returns (id: Option<int>)
      requires Valid()
      modifies this
      ensures Valid()
      ensures id.None? <==> fault || Taken(old(rows), username, email)
      ensures id.None? ==> rows == old(rows)
      ensures id.Some? ==> id.value !in old(rows)
                           && rows == old(rows)[id.value := Account(id.value, username, email, password)]
    {
      if fault || Taken(rows, username, email) {
        return None;
      }
      id := Some(nextId);
      rows := rows[nextId := Account(nextId, username, email, password)];
      nextId := nextId + 1;
    }

    /** `UPDATE users SET password = ? WHERE id = ?`: fails only on a database
        fault; an id with no row is no error and changes nothing. */
    method SetPassword(id: int, password: string, fault: bool) returns (ok: bool)
      requires Valid()
      modifies this
      ensures Valid()
      ensures ok == !fault
      ensures ok && id in old(rows) ==> rows == old(rows)[id := old(rows)[id].(password := password)]
      ensures !ok || id !in old(rows) ==> rows == old(rows)
    {
      if fault {
        return false;
      }
      if id in rows {
        rows := rows[id := rows[id].(password := password)];
      }
      return true;
    }
  }
}
