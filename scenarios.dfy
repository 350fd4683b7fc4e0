/** Whole flows through both services on fresh, empty stores, with no injected
    failure: what a caller can conclude from the services' contracts and the
    specification functions they name. */
module Scenarios {
  import opened Errors
  import opened Entities
  import opened Repositories
  import opened Auth
  import opened Referrals

  /** An owner registers and creates a code valid for one hour; a second user
      registers with that code exactly when it expires. The owner's referral
      list is then the single link to the new user. */
  method RedeemAtExpiry(hasher: Hasher, draws: seq<int>, now: Instant)
    returns (owner: User, code: ReferralCode, referee: User, referrals: seq<Referral>)
    requires Sound(hasher)
    requires |draws| == CodeLength && ValidDraws(draws)
    ensures code.userId == owner.id && code.expiresAt == now + Hour && code.code == CodeOf(draws)
    ensures referee.email == "referee@example.com" && referee.id != owner.id
    ensures referrals == [Referral(1, owner.id, referee.id)]
  {
    var users := new UserStore();
    var codes := new ReferralCodeStore();
    var links := new ReferralStore();
    var auth := new AuthService(users, "secret", hasher);
    var service := new ReferralService(codes, users, links, hasher);

    var registered := auth.RegisterUser("Owner", "owner@example.com", "owner-password", 0, NoRegisterFaults);
    owner := registered.value;
    var created := service.CreateReferralCode(owner.id, Hour, now, draws, None, None);
    code := created.value;
    assert links.links == [] && users.byEmail == map["owner@example.com" := owner];
    var redeemed := service.RegisterWithReferralCode(code.code, "Referee", "referee@example.com", "referee-password",
                                                     now + Hour, 1, None, NoRegisterFaults, None);
    assert service.Redeemable(code.code, now + Hour, None);
    assert redeemed.Ok?;
    referee := redeemed.value;
    assert links.links == [Referral(1, owner.id, referee.id)];
    var listed := service.GetReferralsByReferrerID(owner.id, None);
    referrals := listed.value;
  }

  /** A second registration with the same email is refused, a second code for
      the same owner is refused, and after a delete (repeated, to show that it
      is idempotent) the owner has no code. */
  method DuplicatesAndDelete(hasher: Hasher, draws1: seq<int>, draws2: seq<int>, now: Instant)
    returns (again: Result<User>, second: Result<ReferralCode>, deleted: Outcome, afterDelete: Result<ReferralCode>)
    requires Sound(hasher)
    requires |draws1| == CodeLength && ValidDraws(draws1)
    requires |draws2| == CodeLength && ValidDraws(draws2)
    ensures again == Err(UserAlreadyExists)
    ensures second == Err(CodeAlreadyExists)
    ensures deleted == Pass
    ensures afterDelete == Err(CodeNotFound)
  {
    var users := new UserStore();
    var codes := new ReferralCodeStore();
    var links := new ReferralStore();
    var auth := new AuthService(users, "secret", hasher);
    var service := new ReferralService(codes, users, links, hasher);

    var registered := auth.RegisterUser("Owner", "owner@example.com", "pw", 0, NoRegisterFaults);
    again := auth.RegisterUser("Other", "owner@example.com", "pw2", 1, NoRegisterFaults);
    var owner := registered.value;
    var first := service.CreateReferralCode(owner.id, Hour, now, draws1, None, None);
    second := service.CreateReferralCode(owner.id, Hour, now, draws2, None, None);
    deleted := service.DeleteReferralCode(owner.id, None);
    deleted := service.DeleteReferralCode(owner.id, None);
    afterDelete := service.GetReferralCodeByUserID(owner.id, now, None);
  }

  /** Register, then log in with the same email and password: the session is
      for the stored user and expires three hours after `now`. A wrong
      password is refused as invalid credentials. */
  method RegisterThenLogin(hasher: Hasher, password: string, wrong: string, now: Instant)
    returns (user: User, session: Result<Session>, refused: Result<Session>)
    requires Sound(hasher)
    requires !hasher.matches(wrong, hasher.hash(password, 0))
    ensures session == Ok(Session(user, Claims(user.id, UnixSeconds(now) + SessionSeconds)))
    ensures user.email == "user@example.com" && user.hashedPassword == hasher.hash(password, 0)
    ensures refused == Err(InvalidCredentials)
  {
    var users := new UserStore();
    var auth := new AuthService(users, "secret", hasher);
    var registered := auth.RegisterUser("User", "user@example.com", password, 0, NoRegisterFaults);
    user := registered.value;
    session := auth.LoginUser("user@example.com", password, now, None);
    refused := auth.LoginUser("user@example.com", wrong, now, None);
  }
}
