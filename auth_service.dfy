/** Registration, login and session-token claims (the auth service).
    bcrypt is the injected `Hasher`; JWT signing with HS256 is left opaque,
    so a session is the user together with the claims the token would carry. */
module Auth {
  import opened Errors
  import opened Entities
  import opened Repositories

  /** The random salt bcrypt draws for one hash. */
  type Salt = nat

  /** bcrypt as two uninterpreted functions: `hash(password, salt)` is
      `GenerateFromPassword`, `matches(password, hashed)` is
      `CompareHashAndPassword` returning no error. */
  datatype Hasher = Hasher(hash: (string, Salt) -> string, matches: (string, string) -> bool)

  /** The one property of bcrypt the services rely on: a password verifies
      against every hash made from it. */
  ghost predicate Sound(h: Hasher)
  {
    forall p, s :: h.matches(p, h.hash(p, s))
  }

  /** Session lifetime, in seconds: three hours. */
  const SessionSeconds: int := 3 * 3600

  /** The JWT claims set: "user_id" and "exp" (a NumericDate, whole seconds). */
  datatype Claims = Claims(userId: int, exp: int)

  /** A successful login: the stored user and the claims of the token issued. */
  datatype Session = Session(user: User, claims: Claims)

  /** Failures the store and bcrypt may report during one registration. */
  datatype RegisterFaults = RegisterFaults(lookup: Option<string>, hash: Option<string>, insert: Option<string>)

  /** No failure anywhere. */
  const NoRegisterFaults := RegisterFaults(None, None, None)

  class AuthService {
    const userStore: UserStore
    const jwtSecret: string
    const hasher: Hasher

    ghost predicate Valid()
      reads userStore
    {
      userStore.Valid() && Sound(hasher)
    }

    constructor (userStore: UserStore, jwtSecret: string, hasher: Hasher)
      ensures this.userStore == userStore && this.jwtSecret == jwtSecret && this.hasher == hasher
      ensures userStore.Valid() && Sound(hasher) ==> Valid()
    {
      this.userStore := userStore;
      this.jwtSecret := jwtSecret;
      this.hasher := hasher;
    }

    /** The claims of the token issued at `now` for `user`: it names the user
        and expires three hours later, to the second. */
    function GenerateJWT(user: User, now: Instant): (c: Claims)
      ensures c.userId == user.id
      ensures c.exp == UnixSeconds(now) + SessionSeconds
      ensures c.exp > UnixSeconds(now)
    {
      Claims(user.id, UnixSeconds(now + 3 * Hour))
    }

    /** Registers a user unless the lookup finds the email; any failure of the
        lookup counts as "no such user". The stored row holds the bcrypt hash
        of the password and the id the store assigns. */
    method RegisterUser(name: string, email: string, password: string, salt: Salt, faults: RegisterFaults)
      returns (r: Result<User>)
      requires Valid()
      modifies userStore
      ensures Valid()
      ensures faults.lookup.None? && email in old(userStore.byEmail) ==> r == Err(UserAlreadyExists)
      ensures r.Ok? <==> email !in old(userStore.byEmail) && faults.hash.None? && faults.insert.None?
      ensures r.Ok? ==> && r.value == User(old(userStore.nextId), name, email, hasher.hash(password, salt))
                        && userStore.byEmail == old(userStore.byEmail)[email := r.value]
                        && userStore.nextId == old(userStore.nextId) + 1
                        && r.value.id !in old(userStore.Ids())
                        && userStore.Ids() == old(userStore.Ids()) + {r.value.id}
      ensures r.Err? ==> userStore.byEmail == old(userStore.byEmail) && userStore.nextId == old(userStore.nextId)
      ensures r.Err? && !(faults.lookup.None? && email in old(userStore.byEmail)) ==>
                r.error == if faults.hash.Some? then Fault(faults.hash.value)
                           else if faults.insert.Some? then Fault(faults.insert.value)
                           else UniqueViolation("users")
    {
      var existing := userStore.GetUserByEmail(email, faults.lookup);
      if existing.Found? {
        return Err(UserAlreadyExists);
      }
      if faults.hash.Some? {
        return Err(Fault(faults.hash.value));
      }
      var hashed := hasher.hash(password, salt);
      r := userStore.CreateUser(User(0, name, email, hashed), faults.insert);
    }

    /** Logs in: an email the lookup does not return is "user not found", a
        password that does not verify is "invalid credentials", and otherwise
        the stored user gets a session. */
    function LoginUser(email: string, password: string, now: Instant, lookupFault: Option<string>): (r: Result<Session>)
      reads userStore
      ensures r.Ok? <==> && lookupFault.None? && email in userStore.byEmail
                         && hasher.matches(password, userStore.byEmail[email].hashedPassword)
      ensures r.Ok? ==> && r.value.user == userStore.byEmail[email]
                        && r.value.claims == Claims(r.value.user.id, UnixSeconds(now) + SessionSeconds)
      ensures r.Err? ==> r.error == if lookupFault.None? && email in userStore.byEmail then InvalidCredentials
                                    else UserNotFound
    {
      match userStore.GetUserByEmail(email, lookupFault)
      case Found(user) =>
        if !hasher.matches(password, user.hashedPassword) then Err(InvalidCredentials)
        else Ok(Session(user, GenerateJWT(user, now)))
      case NotFound(_) => Err(UserNotFound)
      case Failed(_) => Err(UserNotFound)
    }
  }

  /** Logging in with the email and password just registered succeeds, for the
      stored user, whose email is the one given. */
  lemma LoginAfterRegister(a: AuthService, name: string, email: string, password: string, salt: Salt,
                           id: int, now: Instant)
    requires a.Valid()
    requires email in a.userStore.byEmail
    requires a.userStore.byEmail[email] == User(id, name, email, a.hasher.hash(password, salt))
    ensures a.LoginUser(email, password, now, None).Ok?
    ensures a.LoginUser(email, password, now, None).value.user.email == email
    ensures a.LoginUser(email, password, now, None).value.claims.userId == id
  {
  }
}
