/** A map-backed implementation of the book repository interface, with the same fault
    injection and write log as the user repository. */
module BooksRepository {
  import opened Wrappers
  import opened Models
  import opened Tables

  /** The error of inserting a record under a key that is already taken. */
  const DuplicateKey := "duplicated key not allowed"

  datatype Op = CreateOp | FindAllOp | FindByUserIDOp | FindByIDOp | UpdateOp | DeleteOp

  datatype Write = Created(book: Book) | Saved(book: Book) | Deleted(id: nat)

  class BookRepo {
    var rows: map<nat, Book>
    var nextID: nat
    var faults: map<Op, string>
    var writes: seq<Write>

    /** Every row is stored under its own positive id, below the next id to allocate. */
    ghost predicate Valid()
      reads this
    {
      0 < nextID && forall id | id in rows :: 0 < id < nextID && rows[id].id == id
    }

    constructor (faults: map<Op, string>)
      ensures Valid() && rows == map[] && nextID == 1 && writes == [] && this.faults == faults
    {
      this.faults := faults;
      rows := map[];
      nextID := 1;
      writes := [];
    }

    function Fault(op: Op): Option<string>
      reads this
    {
      if op in faults then Some(faults[op]) else None
    }

    /** `Create`: a record with id zero is stored under the next id; one that carries a
        free id is stored under it; a taken id is refused. */
    method Create(book: Book) returns (r: Result<Book>)
      requires Valid()
      modifies this
      ensures Valid() && faults == old(faults)
      ensures old(Fault(CreateOp)).Some? ==> r == Err(old(Fault(CreateOp)).value) && unchanged(this)
      ensures old(Fault(CreateOp)).None? && book.id != 0 && book.id in old(rows) ==>
                r == Err(DuplicateKey) && unchanged(this)
      ensures r.Ok? ==> && r.value == book.(id := if book.id == 0 then old(nextID) else book.id)
                        && r.value.id !in old(rows)
                        && rows == old(rows)[r.value.id := r.value]
                        && writes == old(writes) + [Created(r.value)]
                        && nextID == (if old(nextID) <= r.value.id then r.value.id + 1 else old(nextID))
      ensures old(Fault(CreateOp)).None? && (book.id == 0 || book.id !in old(rows)) ==> r.Ok?
    {
      if CreateOp in faults {
        return Err(faults[CreateOp]);
      }
      if book.id != 0 && book.id in rows {
        return Err(DuplicateKey);
      }
      var stored := book;
      if book.id == 0 {
        stored := book.(id := nextID);
      }
      rows := rows[stored.id := stored];
      if nextID <= stored.id {
        nextID := stored.id + 1;
      }
      writes := writes + [Created(stored)];
      return Ok(stored);
    }

    /** `FindAll`: every stored book. The model lists them in ascending id
        order; the query fixes no order of its own. */
    function FindAll(): (r: Result<seq<Book>>)
      reads this
      ensures Fault(FindAllOp).Some? <==> r.Err?
      ensures r.Ok? ==> && (forall i :: 0 <= i < |r.value| ==> r.value[i] in rows.Values)
                        && (Valid() ==> forall id | id in rows :: rows[id] in r.value)
    {
      if FindAllOp in faults then Err(faults[FindAllOp]) else Ok(Listing(rows, nextID))
    }

    /** `FindByUserID`: exactly the stored books whose owner is `userID`. */
    function FindByUserID(userID: nat): (r: Result<seq<Book>>)
      reads this
      ensures Fault(FindByUserIDOp).Some? <==> r.Err?
      ensures r.Ok? ==> forall i :: 0 <= i < |r.value| ==> r.value[i] in rows.Values && r.value[i].userID == userID
      ensures r.Ok? && Valid() ==> forall id | id in rows && rows[id].userID == userID :: rows[id] in r.value
    {
      if FindByUserIDOp in faults then Err(faults[FindByUserIDOp])
      else
        var all := Listing(rows, nextID);
        var owned := Select(all, (b: Book) => b.userID == userID);
        assert Valid() ==> forall id | id in rows && rows[id].userID == userID :: rows[id] in owned by {
          if Valid() {
            forall id | id in rows && rows[id].userID == userID ensures rows[id] in owned {
              var k :| 0 <= k < |all| && all[k] == rows[id];
            }
          }
        }
        Ok(owned)
    }

    /** `FindByID` (gorm's `First`): the row with that id, or "record not found". */
    function FindByID(id: nat): (r: Result<Book>)
      reads this
      ensures Fault(FindByIDOp).Some? ==> r == Err(Fault(FindByIDOp).value)
      ensures Fault(FindByIDOp).None? ==> (r.Ok? <==> id in rows)
      ensures Fault(FindByIDOp).None? && id !in rows ==> r == Err(RecordNotFound)
      ensures r.Ok? ==> r.value == rows[id]
    {
      if FindByIDOp in faults then Err(faults[FindByIDOp])
      else if id in rows then Ok(rows[id])
      else Err(RecordNotFound)
    }

    /** `Update` (gorm's `Save`): updates the row with the record's id, or inserts the
        record under a fresh id when its id is zero. */
    method Update(book: Book) returns (r: Result<Book>)
      requires Valid()
      modifies this
      ensures Valid() && faults == old(faults)
      ensures old(Fault(UpdateOp)).Some? ==> r == Err(old(Fault(UpdateOp)).value) && unchanged(this)
      ensures old(Fault(UpdateOp)).None? && book.id != 0 ==>
                && r == Ok(book) && rows == old(rows)[book.id := book]
                && writes == old(writes) + [Saved(book)]
                && nextID == (if old(nextID) <= book.id then book.id + 1 else old(nextID))
      ensures old(Fault(UpdateOp)).None? && book.id == 0 ==>
                var stored := book.(id := old(nextID));
                && r == Ok(stored) && rows == old(rows)[old(nextID) := stored] && nextID == old(nextID) + 1
                && writes == old(writes) + [Saved(stored)]
    {
      if UpdateOp in faults {
        return Err(faults[UpdateOp]);
      }
      var stored := book;
      if book.id == 0 {
        stored := book.(id := nextID);
      }
      rows := rows[stored.id := stored];
      if nextID <= stored.id {
        nextID := stored.id + 1;
      }
      writes := writes + [Saved(stored)];
      return Ok(stored);
    }

    /** `Delete`: deleting an id that is not stored is not an error. */
    method Delete(id: nat) returns (err: Option<string>)
      requires Valid()
      modifies this
      ensures Valid() && faults == old(faults)
      ensures err == old(Fault(DeleteOp))
      ensures err.Some? ==> unchanged(this)
      ensures err.None? ==> && rows == old(rows) - {id} && writes == old(writes) + [Deleted(id)]
                            && nextID == old(nextID)
    {
      if DeleteOp in faults {
        return Some(faults[DeleteOp]);
      }
      rows := rows - {id};
      writes := writes + [Deleted(id)];
      return None;
    }
  }
}
