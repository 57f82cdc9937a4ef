/** The user use cases: sign-up, login, profile, partial update and deletion over the
    user repository. */
module UsersUsecase {
  import opened Wrappers
  import opened Models
  import opened Bcrypt
  import opened UsersRepository

  const MsgPasswordsDoNotMatch := "passwords do not match"
  const MsgEmailExisting := "email existing, please choose another email"
  const MsgUserNotFound := "user not found"
  const MsgInvalidCredentials := "invalid credentials"

  /** The partial update of a user: each of name, email and image is replaced exactly
      when the input gives a non-empty value; every other field is kept. */
  function MergeUser(u: User, input: UserUpdateInput): (r: User)
    ensures r.name == (if input.name != "" then input.name else u.name)
    ensures r.email == (if input.email != "" then input.email else u.email)
    ensures r.image == (if input.image != "" then input.image else u.image)
    ensures r.id == u.id && r.password == u.password
    ensures r.createdAt == u.createdAt && r.updatedAt == u.updatedAt
    ensures r.books == u.books && r.bookCategories == u.bookCategories
  {
    var u1 := if input.name != "" then u.(name := input.name) else u;
    var u2 := if input.email != "" then u1.(email := input.email) else u1;
    if input.image != "" then u2.(image := input.image) else u2
  }

  /** Applying the same update twice gives the record of applying it once. */
  lemma MergeUserIdempotent(u: User, input: UserUpdateInput)
    ensures MergeUser(MergeUser(u, input), input) == MergeUser(u, input)
  {
  }

  /** An input with every field empty changes nothing. */
  lemma MergeUserEmptyInput(u: User)
    ensures MergeUser(u, UserUpdateInput("", "", "")) == u
  {
  }

  class UserUseCase {
    const userRepo: UserRepo
    const hasher: Hasher

    constructor (userRepo: UserRepo, hasher: Hasher)
      ensures this.userRepo == userRepo && this.hasher == hasher
    {
      this.userRepo := userRepo;
      this.hasher := hasher;
    }

    /** The outcome of sign-up: the password confirmation is checked first, then the
        email, and only a request that passes both reaches the repository's create. */
    function SignUpOutcome(payload: SignUpInput): (r: Result<User>)
      reads userRepo
      ensures payload.password != payload.passwordConfirm ==> r == Err(MsgPasswordsDoNotMatch)
      ensures payload.password == payload.passwordConfirm && userRepo.CheckEmailExisting(payload.email)
              ==> r == Err(MsgEmailExisting)
      ensures payload.password == payload.passwordConfirm && !userRepo.CheckEmailExisting(payload.email)
              ==> r == userRepo.Creation(payload)
    {
      if payload.password != payload.passwordConfirm then Err(MsgPasswordsDoNotMatch)
      else if userRepo.CheckEmailExisting(payload.email) then Err(MsgEmailExisting)
      else userRepo.Creation(payload)
    }

    /** Sign-up: on any failure nothing is written; on success the one new row is the
        created user and its projection is returned. */
    method SignUpUser(payload: SignUpInput) returns (r: Result<UserResponse>)
      requires userRepo.Valid()
      modifies userRepo
      ensures userRepo.Valid() && userRepo.faults == old(userRepo.faults)
      ensures var outcome := old(SignUpOutcome(payload));
        && (outcome.Err? ==> r == Err(outcome.error) && unchanged(userRepo))
        && (outcome.Ok? ==>
              && r == Ok(FilterUserRecord(outcome.value))
              && userRepo.rows == old(userRepo.rows)[outcome.value.id := outcome.value]
              && userRepo.writes == old(userRepo.writes) + [Created(outcome.value)]
              && userRepo.nextID == old(userRepo.nextID) + 1)
    {
      if payload.password != payload.passwordConfirm {
        return Err(MsgPasswordsDoNotMatch);
      }
      if userRepo.CheckEmailExisting(payload.email) {
        return Err(MsgEmailExisting);
      }
      var createdUser := userRepo.CreateUser(payload);
      if createdUser.Err? {
        return Err(createdUser.error);
      }
      return Ok(FilterUserRecord(createdUser.value));
    }

    /** Login: any lookup failure reads "user not found", a password that does not match
        the stored hash reads "invalid credentials", and otherwise the stored user is
        returned as it is. */
    function LoginUser(input: SignInInput): (r: Result<User>)
      reads userRepo
      ensures userRepo.GetByEmail(input.email).Err? ==> r == Err(MsgUserNotFound)
      ensures userRepo.GetByEmail(input.email).Ok? &&
              !hasher.compare(userRepo.GetByEmail(input.email).value.password, input.password)
              ==> r == Err(MsgInvalidCredentials)
      ensures userRepo.GetByEmail(input.email).Ok? &&
              hasher.compare(userRepo.GetByEmail(input.email).value.password, input.password)
              ==> r == userRepo.GetByEmail(input.email)
      ensures r.Ok? ==> && r == userRepo.GetByEmail(input.email)
                        && r.value.email == input.email
                        && hasher.compare(r.value.password, input.password)
                        && exists id :: id in userRepo.rows && userRepo.rows[id] == r.value
    {
      match userRepo.GetByEmail(input.email)
      case Err(_) => Err(MsgUserNotFound)
      case Ok(foundUser) =>
        if !hasher.compare(foundUser.password, input.password) then Err(MsgInvalidCredentials)
        else Ok(foundUser)
    }

    /** The profile is the projection of the stored user; lookup errors pass through. */
    function GetUserProfile(userID: nat): (r: Result<UserResponse>)
      reads userRepo
      ensures userRepo.GetByID(userID).Err? ==> r == Err(userRepo.GetByID(userID).error)
      ensures userRepo.GetByID(userID).Ok? ==> r == Ok(FilterUserRecord(userRepo.GetByID(userID).value))
    {
      match userRepo.GetByID(userID)
      case Err(e) => Err(e)
      case Ok(user) => Ok(FilterUserRecord(user))
    }

    /** The outcome of a partial update: the lookup error, the save error, or the
        merged record stored under the same id. */
    function UpdateOutcome(userID: nat, input: UserUpdateInput): (r: Result<User>)
      requires userRepo.Valid()
      reads userRepo
      ensures userRepo.GetByID(userID).Err? ==> r == Err(userRepo.GetByID(userID).error)
      ensures userRepo.GetByID(userID).Ok? && userRepo.Fault(UpdateOp).Some?
              ==> r == Err(userRepo.Fault(UpdateOp).value)
      ensures userRepo.GetByID(userID).Ok? && userRepo.Fault(UpdateOp).None?
              ==> r == Ok(MergeUser(userRepo.GetByID(userID).value, input))
      ensures r.Ok? ==> r.value == MergeUser(userRepo.GetByID(userID).value, input) && r.value.id == userID
    {
      match userRepo.GetByID(userID)
      case Err(e) => Err(e)
      case Ok(user) =>
        if userRepo.Fault(UpdateOp).Some? then Err(userRepo.Fault(UpdateOp).value)
        else Ok(MergeUser(user, input))
    }

    /** Partial update: nothing is written when the lookup or the save fails; otherwise
        the merged record replaces the stored one and its projection is returned. */
    method UpdateUser(userID: nat, input: UserUpdateInput) returns (r: Result<UserResponse>)
      requires userRepo.Valid()
      modifies userRepo
      ensures userRepo.Valid() && userRepo.faults == old(userRepo.faults)
      ensures var outcome := old(UpdateOutcome(userID, input));
        && (outcome.Err? ==> r == Err(outcome.error) && unchanged(userRepo))
        && (outcome.Ok? ==>
              && r == Ok(FilterUserRecord(outcome.value))
              && userRepo.rows == old(userRepo.rows)[userID := outcome.value]
              && userRepo.writes == old(userRepo.writes) + [Saved(outcome.value)]
              && userRepo.nextID == old(userRepo.nextID))
    {
      var found := userRepo.GetByID(userID);
      if found.Err? {
        return Err(found.error);
      }
      var user := found.value;
      if input.name != "" {
        user := user.(name := input.name);
      }
      if input.email != "" {
        user := user.(email := input.email);
      }
      if input.image != "" {
        user := user.(image := input.image);
      }
      assert user == MergeUser(found.value, input);
      var err := userRepo.Update(user);
      if err.Some? {
        return Err(err.value);
      }
      return Ok(FilterUserRecord(user));
    }

    /** Deletion returns exactly the repository's error, or none. */
    method DeleteUser(userID: nat) returns (err: Option<string>)
      requires userRepo.Valid()
      modifies userRepo
      ensures userRepo.Valid() && userRepo.faults == old(userRepo.faults)
      ensures err == old(userRepo.Fault(DeleteOp))
      ensures err.Some? ==> unchanged(userRepo)
      ensures err.None? ==> userRepo.rows == old(userRepo.rows) - {userID}
                            && userRepo.writes == old(userRepo.writes) + [Deleted(userID)]
                            && userRepo.nextID == old(userRepo.nextID)
    {
      err := userRepo.Delete(userID);
    }
  }

  /** Signing up and then logging in with the same email and password succeeds and
      yields the user just created, provided the hasher keeps its contract. */
  method SignUpThenLogIn(uc: UserUseCase, payload: SignUpInput)
    returns (created: Result<UserResponse>, loggedIn: Result<User>)
    requires uc.userRepo.Valid() && Sound(uc.hasher) && uc.userRepo.hasher == uc.hasher
    requires uc.userRepo.Fault(CreateUserOp).None? && uc.userRepo.Fault(GetByEmailOp).None?
    requires payload.password == payload.passwordConfirm
    requires !uc.userRepo.CheckEmailExisting(payload.email)
    requires uc.hasher.generate(payload.password).Ok?
    modifies uc.userRepo
    ensures created.Ok? && loggedIn.Ok?
    ensures loggedIn.value.id == created.value.id && FilterUserRecord(loggedIn.value) == created.value
  {
    ghost var before := uc.userRepo.rows;
    ghost var newUser := uc.userRepo.Creation(payload).value;
    created := uc.SignUpUser(payload);
    var repo := uc.userRepo;
    assert newUser.id in repo.rows && repo.rows[newUser.id] == newUser;
    // the new row is the only one with this email, so the lookup finds it
    assert repo.FirstWithEmail(payload.email, 0).Some?;
    var found := repo.GetByEmail(payload.email);
    assert found.Ok?;
    assert found == Ok(newUser) by {
      var id :| id in repo.rows && repo.rows[id] == found.value;
      assert id == newUser.id;
    }
    assert uc.hasher.compare(newUser.password, payload.password);
    loggedIn := uc.LoginUser(SignInInput(payload.email, payload.password));
  }

  /** Sending the same partial update twice succeeds both times, returns the same
      profile, and leaves the stored record as one update would. */
  method UpdateUserTwice(uc: UserUseCase, userID: nat, input: UserUpdateInput)
    returns (first: Result<UserResponse>, second: Result<UserResponse>)
    requires uc.userRepo.Valid() && userID in uc.userRepo.rows
    requires uc.userRepo.Fault(GetByIDOp).None? && uc.userRepo.Fault(UpdateOp).None?
    modifies uc.userRepo
    ensures first.Ok? && second == first
    ensures uc.userRepo.rows == old(uc.userRepo.rows)[userID := MergeUser(old(uc.userRepo.rows[userID]), input)]
  {
    first := uc.UpdateUser(userID, input);
    MergeUserIdempotent(old(uc.userRepo.rows[userID]), input);
    second := uc.UpdateUser(userID, input);
  }
}
