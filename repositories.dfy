/** In-memory stand-ins for the three Postgres stores the services call.
    Each table is a field the insert and delete methods reassign; every
    operation takes an optional injected driver failure. Where the database
    would refuse a duplicate key, the store refuses it with `UniqueViolation`. */
module Repositories {
  import opened Errors
  import opened Entities

  /** The `users` table, keyed by email. */
  class UserStore {
    var byEmail: map<string, User>
    var nextId: int

    ghost predicate Valid()
      reads this
    {
      && 1 <= nextId
      && (forall e :: e in byEmail ==> byEmail[e].email == e && 1 <= byEmail[e].id < nextId)
      && (forall e, f :: e in byEmail && f in byEmail && e != f ==> byEmail[e].id != byEmail[f].id)
    }

    constructor ()
      ensures Valid() && byEmail == map[] && nextId == 1
    {
      byEmail := map[];
      nextId := 1;
    }

    /** The ids of every stored user. */
    ghost function Ids(): set<int>
      reads this
    {
      set e | e in byEmail :: byEmail[e].id
    }

    /** `INSERT ... RETURNING id`: stores `u` under a fresh id and returns the
        stored row, or fails and leaves the table as it was. */
    method CreateUser(u: User, fault: Option<string>) returns (r: Result<User>)
      requires Valid()
      modifies this
      ensures Valid()
      ensures fault.Some? ==> r == Err(Fault(fault.value))
      ensures fault.None? && u.email in old(byEmail) ==> r == Err(UniqueViolation("users"))
      ensures r.Ok? <==> fault.None? && u.email !in old(byEmail)
      ensures r.Ok? ==> && r.value == u.(id := old(nextId))
                        && byEmail == old(byEmail)[u.email := r.value]
                        && nextId == old(nextId) + 1
                        && r.value.id !in old(Ids())
                        && Ids() == old(Ids()) + {r.value.id}
      ensures r.Err? ==> byEmail == old(byEmail) && nextId == old(nextId)
    {
      if fault.Some? {
        return Err(Fault(fault.value));
      }
      if u.email in byEmail {
        return Err(UniqueViolation("users"));
      }
      var stored := u.(id := nextId);
      ghost var before := byEmail;
      byEmail := byEmail[u.email := stored];
      nextId := nextId + 1;
      r := Ok(stored);
      assert Ids() == old(Ids()) + {stored.id} by {
        forall id | id in Ids() ensures id in old(Ids()) + {stored.id} {
          var e :| e in byEmail && byEmail[e].id == id;
          if e != u.email { assert e in before && before[e].id == id; }
        }
        forall id | id in old(Ids()) ensures id in Ids() {
          var e :| e in before && before[e].id == id;
          assert e in byEmail && byEmail[e].id == id;
        }
        assert stored.id == byEmail[u.email].id;
      }
    }

    /** `SELECT ... WHERE email=$1`: the row, "user not found", or the failure. */
    function GetUserByEmail(email: string, fault: Option<string>): (r: Lookup<User>)
      reads this
      ensures r.Found? <==> fault.None? && email in byEmail
      ensures r.Found? ==> r.value == byEmail[email]
      ensures r.NotFound? ==> r.error == UserNotFound
      ensures r.Failed? <==> fault.Some?
    {
      if fault.Some? then Failed(Fault(fault.value))
      else if email in byEmail then Found(byEmail[email])
      else NotFound(UserNotFound)
    }
  }

  /** The `referral_codes` table, keyed by owner, with an index from code value
      to owner for the reverse lookup. */
  class ReferralCodeStore {
    var byOwner: map<int, ReferralCode>
    var ownerOf: map<string, int>
    var nextId: int

    ghost predicate Valid()
      reads this
    {
      && 1 <= nextId
      && (forall o :: o in byOwner ==>
            && byOwner[o].userId == o
            && 1 <= byOwner[o].id < nextId
            && byOwner[o].code in ownerOf
            && ownerOf[byOwner[o].code] == o)
      && (forall c :: c in ownerOf ==> ownerOf[c] in byOwner && byOwner[ownerOf[c]].code == c)
    }

    constructor ()
      ensures Valid() && byOwner == map[] && ownerOf == map[] && nextId == 1
    {
      byOwner := map[];
      ownerOf := map[];
      nextId := 1;
    }

    /** `INSERT ... RETURNING id`: refuses a second row for the same owner or
        the same code value. */
    method CreateReferralCode(rc: ReferralCode, fault: Option<string>) returns (r: Result<ReferralCode>)
      requires Valid()
      modifies this
      ensures Valid()
      ensures fault.Some? ==> r == Err(Fault(fault.value))
      ensures fault.None? && (rc.userId in old(byOwner) || rc.code in old(ownerOf)) ==>
                r == Err(UniqueViolation("referral_codes"))
      ensures r.Ok? <==> fault.None? && rc.userId !in old(byOwner) && rc.code !in old(ownerOf)
      ensures r.Ok? ==> && r.value == rc.(id := old(nextId))
                        && byOwner == old(byOwner)[rc.userId := r.value]
                        && ownerOf == old(ownerOf)[rc.code := rc.userId]
                        && nextId == old(nextId) + 1
      ensures r.Err? ==> byOwner == old(byOwner) && ownerOf == old(ownerOf) && nextId == old(nextId)
    {
      if fault.Some? {
        return Err(Fault(fault.value));
      }
      if rc.userId in byOwner || rc.code in ownerOf {
        return Err(UniqueViolation("referral_codes"));
      }
      var stored := rc.(id := nextId);
      byOwner := byOwner[rc.userId := stored];
      ownerOf := ownerOf[rc.code := rc.userId];
      nextId := nextId + 1;
      r := Ok(stored);
    }

    /** `SELECT ... WHERE user_id=$1`; a missing row is reported as the error
        "referral code not found", not as an absent value. */
    function GetReferralCodeByUserID(owner: int, fault: Option<string>): (r: Lookup<ReferralCode>)
      reads this
      ensures r.Found? <==> fault.None? && owner in byOwner
      ensures r.Found? ==> r.value == byOwner[owner]
      ensures r.NotFound? ==> r.error == CodeNotFound
      ensures r.Failed? <==> fault.Some?
    {
      if fault.Some? then Failed(Fault(fault.value))
      else if owner in byOwner then Found(byOwner[owner])
      else NotFound(CodeNotFound)
    }

    /** `DELETE ... WHERE user_id=$1`: removing no row is not an error. */
    method DeleteReferralCodeByUserID(owner: int, fault: Option<string>) returns (r: Outcome)
      requires Valid()
      modifies this
      ensures Valid()
      ensures r == (if fault.Some? then Fail(Fault(fault.value)) else Pass)
      ensures r.Pass? ==> owner !in byOwner
      ensures r.Pass? && owner in old(byOwner) ==>
                byOwner == old(byOwner) - {owner} && ownerOf == old(ownerOf) - {old(byOwner)[owner].code}
      ensures (r.Fail? || owner !in old(byOwner)) ==> byOwner == old(byOwner) && ownerOf == old(ownerOf)
      ensures nextId == old(nextId)
    {
      if fault.Some? {
        return Fail(Fault(fault.value));
      }
      if owner in byOwner {
        var code := byOwner[owner].code;
        byOwner := byOwner - {owner};
        ownerOf := ownerOf - {code};
      }
      r := Pass;
    }

    /** `SELECT user_id, expires_at ... WHERE code=$1`: only the owner and the
        expiry are read back; a missing row is the error "user not found". */
    function GetReferralByReferralCode(code: string, fault: Option<string>): (r: Lookup<ReferralCode>)
      requires Valid()
      reads this
      ensures r.Found? <==> fault.None? && code in ownerOf
      ensures r.Found? ==> && r.value.userId == ownerOf[code]
                           && r.value.expiresAt == byOwner[ownerOf[code]].expiresAt
      ensures r.NotFound? ==> r.error == UserNotFound
      ensures r.Failed? <==> fault.Some?
    {
      if fault.Some? then Failed(Fault(fault.value))
      else if code in ownerOf then
        var owner := ownerOf[code];
        Found(ReferralCode(0, owner, "", byOwner[owner].expiresAt))
      else NotFound(UserNotFound)
    }
  }

  /** The links of `links` whose referrer is `referrer`, in table order: the
      list the `rows.Next()` loop builds, one row at a time from the front.
      Each matching link appears as often as in the table, and no other does. */
  function ReferralsOf(links: seq<Referral>, referrer: int): (r: seq<Referral>)
    ensures |r| <= |links|
    ensures forall x :: x in r <==> x in links && x.referrerId == referrer
  {
    if links == [] then []
    else
      var rest := ReferralsOf(links[1..], referrer);
      if links[0].referrerId == referrer then [links[0]] + rest else rest
  }

  /** The filter keeps each matching link as often as the table holds it and
      drops every other: no row is listed twice or left out. */
  lemma {:induction false} ReferralsOfCounts(links: seq<Referral>, referrer: int)
    ensures forall x :: multiset(ReferralsOf(links, referrer))[x] ==
                          if x.referrerId == referrer then multiset(links)[x] else 0
  {
    if links != [] {
      ReferralsOfCounts(links[1..], referrer);
      assert links == [links[0]] + links[1..];
    }
  }

  /** Appending one link adds it to its referrer's list, at the end, and
      leaves every other referrer's list as it was. */
  lemma {:induction false} ReferralsOfAppend(links: seq<Referral>, link: Referral, referrer: int)
    ensures ReferralsOf(links + [link], referrer)
            == if link.referrerId == referrer then ReferralsOf(links, referrer) + [link]
               else ReferralsOf(links, referrer)
  {
    if links == [] {
      assert links + [link] == [link] && [link][1..] == [];
    } else {
      assert (links + [link])[0] == links[0];
      assert (links + [link])[1..] == links[1..] + [link];
      ReferralsOfAppend(links[1..], link, referrer);
    }
  }

  /** The `referrals` table: links are only ever appended. */
  class ReferralStore {
    var links: seq<Referral>
    var nextId: int

    ghost predicate Valid()
      reads this
    {
      && 1 <= nextId
      && forall i :: 0 <= i < |links| ==> 1 <= links[i].id < nextId
    }

    constructor ()
      ensures Valid() && links == [] && nextId == 1
    {
      links := [];
      nextId := 1;
    }

    /** `INSERT INTO referrals (referrer_id, referee_id)`. */
    method CreateReferralLink(referrer: int, referee: int, fault: Option<string>) returns (r: Outcome)
      requires Valid()
      modifies this
      ensures Valid()
      ensures r == (if fault.Some? then Fail(Fault(fault.value)) else Pass)
      ensures r.Pass? ==> links == old(links) + [Referral(old(nextId), referrer, referee)] && nextId == old(nextId) + 1
      ensures r.Fail? ==> links == old(links) && nextId == old(nextId)
    {
      if fault.Some? {
        return Fail(Fault(fault.value));
      }
      links := links + [Referral(nextId, referrer, referee)];
      nextId := nextId + 1;
      r := Pass;
    }

    /** `SELECT ... WHERE referrer_id = $1`: an empty list when there is none. */
    function GetReferralsByReferrerID(referrer: int, fault: Option<string>): (r: Result<seq<Referral>>)
      reads this
      ensures r.Err? <==> fault.Some?
      ensures r.Ok? ==> r.value == ReferralsOf(links, referrer)
      ensures r.Ok? ==> forall x :: multiset(r.value)[x] ==
                          if x.referrerId == referrer then multiset(links)[x] else 0
    {
      ReferralsOfCounts(links, referrer);
      if fault.Some? then Err(Fault(fault.value)) else Ok(ReferralsOf(links, referrer))
    }
  }
}
