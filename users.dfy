/** The user registry behind the register and login handlers. Password
    hashing and comparison are outside the model: register receives the hash
    it stores, and login receives the comparison as `matches`. */
module Users {
  import opened Outcomes
  import opened Json
  import opened Strings

  /** A stored user; `password` is the hash, never the password itself. */
  datatype User = User(id: string, email: Value, password: string)

  /** The claims a session token carries. */
  datatype Principal = Principal(id: string, email: Value)

  const CredentialsRequired := "Email and password required"
  const UserExists := "User already exists"
  const InvalidCredentials := "Invalid credentials"

  /** `users.find(u => u.email === email)`, as the index of the first hit. */
  function FindByEmail(users: seq<User>, email: Value): (r: Option<nat>)
    ensures r.None? <==> forall k :: 0 <= k < |users| ==> !StrictEquals(users[k].email, email)
    ensures r.Some? ==> r.value < |users| && StrictEquals(users[r.value].email, email)
    ensures r.Some? ==> forall k :: 0 <= k < r.value ==> !StrictEquals(users[k].email, email)
    decreases |users|
  {
    if users == [] then None
    else if StrictEquals(users[0].email, email) then Some(0)
    else match FindByEmail(users[1..], email)
      case None => None
      case Some(k) => Some(k + 1)
  }

  /** No two users share an email. */
  predicate UniqueEmails(users: seq<User>) {
    forall i, j :: 0 <= i < j < |users| ==> !StrictEquals(users[i].email, users[j].email)
  }

  class UserRegistry {
    var users: seq<User>

    ghost predicate Valid()
      reads this
    {
      UniqueEmails(users)
    }

    /** A registry that does not exist yet reads as empty. */
    constructor ()
      ensures users == [] && Valid()
    {
      users := [];
    }

    /** POST /api/auth/register: refuses a falsy email or password and an
        email already present; fails when the password is not a string,
        which the hashing library rejects; otherwise appends exactly one
        user, whose id is the decimal form of `now`, and answers with the
        session claims. */
    method Register(email: Value, password: Value, hashed: string, now: nat) returns (r: Result<Principal>)
      requires Valid()
      modifies this
      ensures Valid()
      ensures !Truthy(email) || !Truthy(password) ==>
        r == Err(BadRequest(CredentialsRequired)) && users == old(users)
      ensures Truthy(email) && Truthy(password) && FindByEmail(old(users), email).Some? ==>
        r == Err(BadRequest(UserExists)) && users == old(users)
      ensures Truthy(email) && Truthy(password) && FindByEmail(old(users), email).None? && !password.Str? ==>
        r == Err(InternalError) && users == old(users)
      ensures Truthy(email) && Truthy(password) && FindByEmail(old(users), email).None? && password.Str? ==>
        users == old(users) + [User(DecimalString(now), email, hashed)]
        && r == Ok(Principal(DecimalString(now), email))
    {
      if !Truthy(email) || !Truthy(password) {
        return Err(BadRequest(CredentialsRequired));
      }
      if FindByEmail(users, email).Some? {
        return Err(BadRequest(UserExists));
      }
      if !password.Str? {
        return Err(InternalError);
      }
      var user := User(DecimalString(now), email, hashed);
      users := users + [user];
      r := Ok(Principal(user.id, user.email));
    }

    /** POST /api/auth/login: refuses a falsy email or password, an unknown
        email and a password that does not match the stored hash; fails when
        the password is not a string, which the comparison rejects; otherwise
        answers with the claims of the user found. */
    function Login(email: Value, password: Value, matches: (string, string) -> bool): (r: Result<Principal>)
      reads this
      ensures !Truthy(email) || !Truthy(password) ==> r == Err(BadRequest(CredentialsRequired))
      ensures Truthy(email) && Truthy(password) && FindByEmail(users, email).None? ==>
        r == Err(BadRequest(InvalidCredentials))
      ensures r == Err(InternalError) <==>
        Truthy(email) && Truthy(password) && FindByEmail(users, email).Some? && !password.Str?
      ensures r.Err? && Truthy(email) && Truthy(password) && password.Str? ==>
        r.error == BadRequest(InvalidCredentials)
      ensures r.Ok? <==>
        Truthy(email) && password.Str? && password.s != []
        && exists k :: FirstWithEmail(users, email, k) && matches(password.s, users[k].password)
      ensures r.Ok? ==> exists k :: FirstWithEmail(users, email, k) && r.value == Principal(users[k].id, users[k].email)
    {
      if !Truthy(email) || !Truthy(password) then Err(BadRequest(CredentialsRequired))
      else match FindByEmail(users, email)
        case None => Err(BadRequest(InvalidCredentials))
        case Some(k) =>
          assert FirstWithEmail(users, email, k);
          if !password.Str? then Err(InternalError)
          else if !matches(password.s, users[k].password) then Err(BadRequest(InvalidCredentials))
          else Ok(Principal(users[k].id, users[k].email))
    }
  }

  /** `k` is the first position holding a user with this email. */
  ghost predicate FirstWithEmail(users: seq<User>, email: Value, k: int) {
    0 <= k < |users| && StrictEquals(users[k].email, email)
    && forall j :: 0 <= j < k ==> !StrictEquals(users[j].email, email)
  }

  /** Registering and then logging in with the same credentials succeeds
      with the same claims, provided the password is a non-empty string that
      matches the hash stored (an object as email registers, but can never
      be found again). */
  lemma LoginAfterRegister(reg: UserRegistry, before: seq<User>, email: Value, password: string,
                           hashed: string, now: nat, matches: (string, string) -> bool)
    requires Truthy(email) && password != [] && !email.Composite?
    requires FindByEmail(before, email).None?
    requires reg.users == before + [User(DecimalString(now), email, hashed)]
    requires matches(password, hashed)
    ensures reg.Login(email, Str(password), matches) == Ok(Principal(DecimalString(now), email))
  {
    var users := reg.users;
    assert users[|before|] == User(DecimalString(now), email, hashed);
    assert FindByEmail(users, email) == Some(|before|) by {
      var f := FindByEmail(users, email);
      assert StrictEquals(users[|before|].email, email);
      assert forall k :: 0 <= k < |before| ==> users[k] == before[k];
    }
  }
}
