/** A map-backed implementation of the user repository interface. Each operation can
    be made to fail through `faults`, so that the callers' error paths are reachable;
    `writes` records the state-changing calls in order. */
module UsersRepository {
  import opened Wrappers
  import opened Models
  import opened Bcrypt
  import opened Tables

  datatype Op = CreateUserOp | GetByEmailOp | GetByIDOp | UpdateOp | DeleteOp

  datatype Write = Created(user: User) | Saved(user: User) | Deleted(id: nat)

  class UserRepo {
    var rows: map<nat, User>
    var nextID: nat
    var faults: map<Op, string>
    var writes: seq<Write>
    const hasher: Hasher

    /** Every row is stored under its own positive id, below the next id to allocate. */
    ghost predicate Valid()
      reads this
    {
      0 < nextID && forall id | id in rows :: 0 < id < nextID && rows[id].id == id
    }

    constructor (hasher: Hasher, faults: map<Op, string>)
      ensures Valid() && rows == map[] && nextID == 1 && writes == []
      ensures this.hasher == hasher && this.faults == faults
    {
      this.hasher := hasher;
      this.faults := faults;
      rows := map[];
      nextID := 1;
      writes := [];
    }

    function Fault(op: Op): Option<string>
      reads this
    {
      if op in faults then Some(faults[op]) else None
    }

    /** `CheckEmailExisting`: whether some stored user has the email. */
    function CheckEmailExisting(email: string): (b: bool)
      reads this
      ensures b <==> exists u :: u in rows.Values && u.email == email
    {
      var b := exists id | id in rows :: rows[id].email == email;
      assert b <==> exists u :: u in rows.Values && u.email == email by {
        if exists u :: u in rows.Values && u.email == email {
          var u :| u in rows.Values && u.email == email;
          var id :| id in rows && rows[id] == u;
        }
      }
      b
    }

    /** The row with the smallest id at least `from` that has the given email. */
    function FirstWithEmail(email: string, from: nat): (u: Option<User>)
      reads this
      ensures u.Some? ==> u.value.email == email
      ensures u.Some? ==> exists id :: && from <= id < nextID && id in rows && rows[id] == u.value
                                       && forall j | from <= j < id && j in rows :: rows[j].email != email
      ensures u.None? ==> forall id | from <= id < nextID && id in rows :: rows[id].email != email
      decreases nextID - from
    {
      if from >= nextID then None
      else if from in rows && rows[from].email == email then Some(rows[from])
      else FirstWithEmail(email, from + 1)
    }

    /** `GetByEmail`: the first row, by id, with that email, or "record not found". */
    function GetByEmail(email: string): (r: Result<User>)
      reads this
      ensures Fault(GetByEmailOp).Some? ==> r == Err(Fault(GetByEmailOp).value)
      ensures Valid() && Fault(GetByEmailOp).None? ==> (r.Ok? <==> CheckEmailExisting(email))
      ensures r.Ok? ==> r.value.email == email
      ensures r.Ok? ==> exists id :: && id in rows && rows[id] == r.value
                                     && forall j | j < id && j in rows :: rows[j].email != email
    {
      if GetByEmailOp in faults then Err(faults[GetByEmailOp])
      else match FirstWithEmail(email, 0)
        case None => Err(RecordNotFound)
        case Some(u) => Ok(u)
    }

    /** `GetByID` (gorm's `First`): the row with that id, or "record not found". */
    function GetByID(id: nat): (r: Result<User>)
      reads this
      ensures Fault(GetByIDOp).Some? ==> r == Err(Fault(GetByIDOp).value)
      ensures Fault(GetByIDOp).None? ==> (r.Ok? <==> id in rows)
      ensures r.Ok? ==> r.value == rows[id]
    {
      if GetByIDOp in faults then Err(faults[GetByIDOp])
      else if id in rows then Ok(rows[id])
      else Err(RecordNotFound)
    }

    /** The outcome `CreateUser` will have: the new row, stored with the next id and the
        hash of the password, or the error. */
    function Creation(data: SignUpInput): (r: Result<User>)
      reads this
      ensures hasher.generate(data.password).Err? ==> r == Err(hasher.generate(data.password).error)
      ensures hasher.generate(data.password).Ok? && Fault(CreateUserOp).Some? ==> r == Err(Fault(CreateUserOp).value)
      ensures r.Ok? <==> hasher.generate(data.password).Ok? && Fault(CreateUserOp).None?
      ensures r.Ok? ==> && r.value.id == nextID && r.value.name == data.name && r.value.email == data.email
                        && hasher.generate(data.password) == Ok(r.value.password)
    {
      match hasher.generate(data.password)
      case Err(e) => Err(e)
      case Ok(hash) =>
        if CreateUserOp in faults then Err(faults[CreateUserOp])
        else Ok(User(nextID, 0, 0, data.name, data.email, hash, "", [], []))
    }

    method CreateUser(data: SignUpInput) returns (r: Result<User>)
      requires Valid()
      modifies this
      ensures Valid() && r == old(Creation(data))
      ensures faults == old(faults)
      ensures r.Err? ==> unchanged(this)
      ensures r.Ok? ==> && rows == old(rows)[old(nextID) := r.value] && nextID == old(nextID) + 1
                        && writes == old(writes) + [Created(r.value)]
    {
      r := Creation(data);
      if r.Ok? {
        rows := rows[nextID := r.value];
        nextID := nextID + 1;
        writes := writes + [Created(r.value)];
      }
    }

    /** `Save`: updates the row with the record's id, or inserts the record under a fresh
        id when its id is zero. */
    method Update(user: User) returns (err: Option<string>)
      requires Valid()
      modifies this
      ensures Valid() && faults == old(faults)
      ensures err == old(Fault(UpdateOp))
      ensures err.Some? ==> unchanged(this)
      ensures err.None? && user.id != 0 ==>
                && rows == old(rows)[user.id := user] && writes == old(writes) + [Saved(user)]
                && nextID == (if old(nextID) <= user.id then user.id + 1 else old(nextID))
      ensures err.None? && user.id == 0 ==>
                var stored := user.(id := old(nextID));
                && rows == old(rows)[old(nextID) := stored] && nextID == old(nextID) + 1
                && writes == old(writes) + [Saved(stored)]
    {
      if UpdateOp in faults {
        return Some(faults[UpdateOp]);
      }
      if user.id == 0 {
        var stored := user.(id := nextID);
        rows := rows[nextID := stored];
        nextID := nextID + 1;
        writes := writes + [Saved(stored)];
      } else {
        rows := rows[user.id := user];
        if nextID <= user.id {
          nextID := user.id + 1;
        }
        writes := writes + [Saved(user)];
      }
      return None;
    }

    /** Deleting an id that is not stored is not an error. */
    method Delete(id: nat) returns (err: Option<string>)
      requires Valid()
      modifies this
      ensures Valid() && faults == old(faults)
      ensures err == old(Fault(DeleteOp))
      ensures err.Some? ==> unchanged(this)
      ensures err.None? ==> && rows == old(rows) - {id} && writes == old(writes) + [Deleted(id)]
                            && nextID == old(nextID)
    {
      if DeleteOp in faults {
        return Some(faults[DeleteOp]);
      }
      rows := rows - {id};
      writes := writes + [Deleted(id)];
      return None;
    }
  }
}
