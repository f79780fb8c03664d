/** Registration and login against the user store. The store is a map from
    e-mail address to user record, so an address names at most one user.
    Password hashing and hash comparison are the caller's functions: nothing
    is assumed of them beyond being called as the service calls them. */
module Auth {
  import opened Wrappers

  datatype Role = UserRole | AdminRole

  /** The date value built from an ISO date string; parsing is not modelled. */
  datatype Date = Date(iso: string)

  /** A stored user. `id` stands in for the identifier the database assigns. */
  datatype User = User(
    id: nat,
    email: string,
    passwordHash: string,
    firstName: string,
    lastName: Option<string>,
    phone: Option<string>,
    birthDate: Option<Date>,
    role: Role)

  datatype RegisterRequest = RegisterRequest(
    email: string,
    password: string,
    firstName: string,
    lastName: Option<string>,
    phone: Option<string>,
    birthDate: Option<string>)

  datatype AuthRequest = AuthRequest(email: string, password: string)

  datatype AuthError = UserAlreadyExists | UserNotFound | InvalidCredentials

  /** The message each failure is thrown with. */
  function Message(e: AuthError): string
  {
    match e
    case UserAlreadyExists => "User with this email already exists"
    case UserNotFound => "User not found"
    case InvalidCredentials => "Invalid email or password"
  }

  /** The stored birth date: a date when the request carries a non-empty
      string, null otherwise. */
  function BirthDate(requested: Option<string>): (d: Option<Date>)
    ensures d.Some? <==> requested.Some? && requested.value != ""
    ensures d.Some? ==> d.value.iso == requested.value
  {
    if requested.Some? && requested.value != "" then Some(Date(requested.value)) else None
  }

  class UserStore {
    var users: map<string, User>
    var nextId: nat

    /** Every record is filed under its own address, and identifiers are
        distinct and below the next one to hand out. */
    ghost predicate Valid()
      reads this
    {
      (forall e :: e in users ==> users[e].email == e && users[e].id < nextId)
      && (forall e, e' :: e in users && e' in users && users[e].id == users[e'].id ==> e == e')
    }

    constructor ()
      ensures Valid() && users == map[]
    {
      users := map[];
      nextId := 0;
    }

    /** The lookup by unique address. */
    function FindUnique(email: string): (u: Option<User>)
      reads this
      ensures u.Some? <==> email in users
      ensures u.Some? ==> u.value == users[email]
    {
      if email in users then Some(users[email]) else None
    }

    /** Registers a new user: a taken address fails and changes nothing;
        otherwise exactly one record is added under that address, holding the
        hash of the password, the role USER and the birth date if one was
        given, and that record is returned. */
    method Register(payload: RegisterRequest, hash: string -> string) returns (r: Result<User, AuthError>)
      requires Valid()
      modifies this
      ensures Valid()
      ensures payload.email in old(users) ==>
                r == Failure(UserAlreadyExists) && users == old(users) && nextId == old(nextId)
      ensures payload.email !in old(users) ==>
                && r.Success?
                && users == old(users)[payload.email := r.value]
                && r.value.email == payload.email
                && r.value.passwordHash == hash(payload.password)
                && r.value.firstName == payload.firstName
                && r.value.lastName == payload.lastName
                && r.value.phone == payload.phone
                && r.value.birthDate == BirthDate(payload.birthDate)
                && r.value.role == UserRole
                && (forall e :: e in old(users) ==> old(users)[e].id != r.value.id)
    {
      var existing := FindUnique(payload.email);
      if existing.Some? {
        return Failure(UserAlreadyExists);
      }
      var passwordHash := hash(payload.password);
      var created := User(nextId, payload.email, passwordHash, payload.firstName,
                          payload.lastName, payload.phone, BirthDate(payload.birthDate), UserRole);
      users := users[payload.email := created];
      nextId := nextId + 1;
      r := Success(created);
    }

    /** Logs a user in: an unknown address fails with "not found", a password
        the comparison rejects fails with "invalid credentials", and otherwise
        the stored record is returned. The store is only read. */
    method Login(data: AuthRequest, compare: (string, string) -> bool) returns (r: Result<User, AuthError>)
      ensures data.email !in users ==> r == Failure(UserNotFound)
      ensures data.email in users && !compare(data.password, users[data.email].passwordHash) ==>
                r == Failure(InvalidCredentials)
      ensures data.email in users && compare(data.password, users[data.email].passwordHash) ==>
                r == Success(users[data.email])
    {
      var user := FindUnique(data.email);
      if user.None? {
        return Failure(UserNotFound);
      }
      var isPasswordValid := compare(data.password, user.value.passwordHash);
      if !isPasswordValid {
        return Failure(InvalidCredentials);
      }
      r := Success(user.value);
    }
  }

  /** Registering the same address twice: the second attempt fails with the
      conflict error and the store keeps the first record only. */
  method RegisterTwice(store: UserStore, first: RegisterRequest, second: RegisterRequest,
                       hash: string -> string)
      returns (r1: Result<User, AuthError>, r2: Result<User, AuthError>)
    requires store.Valid() && first.email !in store.users && second.email == first.email
    modifies store
    ensures store.Valid()
    ensures r1.Success? && r2 == Failure(UserAlreadyExists)
    ensures store.users == old(store.users)[first.email := r1.value]
  {
    r1 := store.Register(first, hash);
    r2 := store.Register(second, hash);
  }

  /** A fresh registration followed by a login with the same password
      returns the created record, provided the comparison accepts a password
      against its own hash. */
  method RegisterThenLogin(store: UserStore, payload: RegisterRequest,
                           hash: string -> string, compare: (string, string) -> bool)
      returns (registered: Result<User, AuthError>, loggedIn: Result<User, AuthError>)
    requires store.Valid() && payload.email !in store.users
    requires compare(payload.password, hash(payload.password))
    modifies store
    ensures registered.Success? && loggedIn == registered
  {
    registered := store.Register(payload, hash);
    loggedIn := store.Login(AuthRequest(payload.email, payload.password), compare);
  }
}
