/** The referral service: generating codes, the code lifecycle (create, read
    with lazy expiry, delete) and redemption, which registers a user and links
    them to the code's owner. */
module Referrals {
  import opened Errors
  import opened Entities
  import opened Repositories
  import opened Auth

  // ---------------------------------------------------------------------------
  // Code generation

  const Lower: string := "abcdefghijklmnopqrstuvwxyz"
  const Upper: string := "ABCDEFGHIJKLMNOPQRSTUVWXYZ"
  const Digits: string := "0123456789"

  /** The 62 symbols a code is drawn from, in the source's order. */
  const Charset: string := Lower + Upper + Digits

  /** The length of every code the service creates. */
  const CodeLength: nat := 10

  /** The position of `c` in `Charset`, or -1. */
  function SymbolIndex(c: char): int
  {
    if 'a' <= c <= 'z' then c as int - 'a' as int
    else if 'A' <= c <= 'Z' then 26 + (c as int - 'A' as int)
    else if '0' <= c <= '9' then 52 + (c as int - '0' as int)
    else -1
  }

  lemma LowerIndexed(i: int)
    requires 0 <= i < |Lower|
    ensures Lower[i] as int - 'a' as int == i && 'a' <= Lower[i] <= 'z'
  {
  }

  lemma UpperIndexed(i: int)
    requires 0 <= i < |Upper|
    ensures Upper[i] as int - 'A' as int == i && 'A' <= Upper[i] <= 'Z'
  {
  }

  lemma DigitsIndexed(i: int)
    requires 0 <= i < |Digits|
    ensures Digits[i] as int - '0' as int == i && '0' <= Digits[i] <= '9'
  {
  }

  /** `SymbolIndex` inverts indexing into `Charset`: the 62 symbols are distinct. */
  lemma CharsetIndexed(i: int)
    requires 0 <= i < |Charset|
    ensures |Charset| == 62
    ensures SymbolIndex(Charset[i]) == i
  {
    if i < 26 {
      LowerIndexed(i);
    } else if i < 52 {
      UpperIndexed(i - 26);
    } else {
      DigitsIndexed(i - 52);
    }
  }

  /** What `rand.Intn(len(charset))` may return: an index into `Charset`. */
  predicate ValidDraws(draws: seq<int>)
  {
    forall i :: 0 <= i < |draws| ==> 0 <= draws[i] < |Charset|
  }

  predicate InCharset(code: string)
  {
    forall i :: 0 <= i < |code| ==> code[i] in Charset
  }

  /** The code the generator produces from the random indices `draws`,
      built one symbol at a time. */
  function CodeOf(draws: seq<int>): (code: string)
    requires ValidDraws(draws)
    ensures |code| == |draws|
    ensures forall i :: 0 <= i < |draws| ==> code[i] == Charset[draws[i]]
  {
    if draws == [] then ""
    else CodeOf(draws[..|draws| - 1]) + [Charset[draws[|draws| - 1]]]
  }

  /** The indices a code's symbols have in `Charset`. */
  function DrawsOf(code: string): seq<int>
  {
    seq(|code|, i requires 0 <= i < |code| => SymbolIndex(code[i]))
  }

  /** Different draws give different codes: the indices can be read back. */
  lemma {:induction false} DrawsRoundTrip(draws: seq<int>)
    requires ValidDraws(draws)
    ensures DrawsOf(CodeOf(draws)) == draws
  {
    var code := CodeOf(draws);
    forall i | 0 <= i < |draws|
      ensures DrawsOf(code)[i] == draws[i]
    {
      CharsetIndexed(draws[i]);
    }
  }

  /** Every string over `Charset` is the code of some draws, so each of the
      62^n codes of length n comes from exactly one sequence of draws. */
  lemma {:induction false} CodeRoundTrip(code: string)
    requires InCharset(code)
    ensures ValidDraws(DrawsOf(code))
    ensures CodeOf(DrawsOf(code)) == code
  {
    var draws := DrawsOf(code);
    forall i | 0 <= i < |code|
      ensures 0 <= draws[i] < |Charset| && Charset[draws[i]] == code[i]
    {
      var j :| 0 <= j < |Charset| && Charset[j] == code[i];
      CharsetIndexed(j);
    }
  }

  /** Fills a byte buffer of `length` symbols, the i-th chosen by `draws[i]`. */
  method GenerateReferralCode(length: nat, draws: seq<int>) returns (code: string)
    requires |draws| == length && ValidDraws(draws)
    ensures code == CodeOf(draws)
    ensures |code| == length && InCharset(code)
  {
    var buffer := new char[length];
    for i := 0 to length
      invariant forall k :: 0 <= k < i ==> buffer[k] == Charset[draws[k]]
    {
      buffer[i] := Charset[draws[i]];
    }
    code := buffer[..];
  }

  // ---------------------------------------------------------------------------
  // The existing-code check of CreateReferralCode, as written

  /** What CreateReferralCode does after looking up the owner's code. */
  datatype Decision = Proceed | Refuse(error: Error)

  /** The `(existingCode, err)` pair Go sees for a store lookup. */
  function AsGoReply(l: Lookup<ReferralCode>): (Option<ReferralCode>, Option<Error>)
  {
    match l
    case Found(rc) => (Some(rc), None)
    case NotFound(e) => (None, Some(e))
    case Failed(e) => (None, Some(e))
  }

  /** The check as written: any error stops, a code stops, and only a reply
      with neither lets the service go on to create a code. */
  function ExistingCodeCheckAsWritten(existing: Option<ReferralCode>, err: Option<Error>): (d: Decision)
    ensures d == Proceed <==> existing.None? && err.None?
  {
    if err.Some? then Refuse(err.value)
    else if existing.Some? then Refuse(CodeAlreadyExists)
    else Proceed
  }

  /** The store never replies with neither a code nor an error, so the check
      as written never lets a code be created: for an owner without a code it
      returns the store's "referral code not found". */
  lemma AsWrittenNeverCreates(store: ReferralCodeStore, owner: int, fault: Option<string>)
    ensures var reply := AsGoReply(store.GetReferralCodeByUserID(owner, fault));
            ExistingCodeCheckAsWritten(reply.0, reply.1) != Proceed
    ensures fault.None? && owner !in store.byOwner ==>
              var reply := AsGoReply(store.GetReferralCodeByUserID(owner, fault));
              ExistingCodeCheckAsWritten(reply.0, reply.1) == Refuse(CodeNotFound)
  {
  }

  /** The check as intended: the store's "not found" means the owner has no
      code. It differs from the check as written only on that reply. */
  function ExistingCodeCheck(l: Lookup<ReferralCode>): (d: Decision)
    ensures d == Proceed <==> l.NotFound?
    ensures !l.NotFound? ==> d == ExistingCodeCheckAsWritten(AsGoReply(l).0, AsGoReply(l).1)
  {
    match l
    case Found(_) => Refuse(CodeAlreadyExists)
    case NotFound(_) => Proceed
    case Failed(e) => Refuse(e)
  }

  // ---------------------------------------------------------------------------
  // The service

  class ReferralService {
    const codeStore: ReferralCodeStore
    const userStore: UserStore
    const linkStore: ReferralStore
    const hasher: Hasher

    /** The stores' own invariants, a sound hasher, and: every referee is a
        registered user, and no user is the referee of two links. */
    ghost predicate Valid()
      reads codeStore, userStore, linkStore
    {
      && codeStore.Valid() && userStore.Valid() && linkStore.Valid() && Sound(hasher)
      && (forall i :: 0 <= i < |linkStore.links| ==> linkStore.links[i].refereeId in userStore.Ids())
      && (forall i, j :: 0 <= i < j < |linkStore.links| ==>
            linkStore.links[i].refereeId != linkStore.links[j].refereeId)
    }

    constructor (codeStore: ReferralCodeStore, userStore: UserStore, linkStore: ReferralStore, hasher: Hasher)
      ensures this.codeStore == codeStore && this.userStore == userStore
      ensures this.linkStore == linkStore && this.hasher == hasher
      ensures codeStore.Valid() && userStore.Valid() && linkStore.Valid() && Sound(hasher) && linkStore.links == [] ==>
                Valid()
    {
      this.codeStore := codeStore;
      this.userStore := userStore;
      this.linkStore := linkStore;
      this.hasher := hasher;
    }

    /** Creates the owner's code, valid for `expiresIn` from `now` (whatever its
        sign). Refused when the owner already has a code, expired or not. */
    method CreateReferralCode(userId: int, expiresIn: Duration, now: Instant, draws: seq<int>,
                              lookupFault: Option<string>, insertFault: Option<string>)
      returns (r: Result<ReferralCode>)
      requires Valid()
      requires |draws| == CodeLength && ValidDraws(draws)
      modifies codeStore
      ensures Valid()
      ensures lookupFault.Some? ==> r == Err(Fault(lookupFault.value))
      ensures lookupFault.None? && userId in old(codeStore.byOwner) ==> r == Err(CodeAlreadyExists)
      ensures lookupFault.None? && userId !in old(codeStore.byOwner) && insertFault.Some? ==>
                r == Err(Fault(insertFault.value))
      ensures lookupFault.None? && insertFault.None? && userId !in old(codeStore.byOwner)
              && CodeOf(draws) in old(codeStore.ownerOf) ==>
                r == Err(UniqueViolation("referral_codes"))
      ensures r.Ok? <==> && lookupFault.None? && insertFault.None?
                         && userId !in old(codeStore.byOwner) && CodeOf(draws) !in old(codeStore.ownerOf)
      ensures r.Ok? ==> && r.value == ReferralCode(old(codeStore.nextId), userId, CodeOf(draws), now + expiresIn)
                        && |r.value.code| == CodeLength && InCharset(r.value.code)
                        && codeStore.byOwner == old(codeStore.byOwner)[userId := r.value]
                        && codeStore.ownerOf == old(codeStore.ownerOf)[r.value.code := userId]
                        && codeStore.nextId == old(codeStore.nextId) + 1
      ensures r.Err? ==> && codeStore.byOwner == old(codeStore.byOwner)
                         && codeStore.ownerOf == old(codeStore.ownerOf)
                         && codeStore.nextId == old(codeStore.nextId)
    {
      var existing := codeStore.GetReferralCodeByUserID(userId, lookupFault);
      var decision := ExistingCodeCheck(existing);
      if decision.Refuse? {
        return Err(decision.error);
      }
      var code := GenerateReferralCode(CodeLength, draws);
      var expiresAt := now + expiresIn;
      r := codeStore.CreateReferralCode(ReferralCode(0, userId, code, expiresAt), insertFault);
    }

    /** Deletes the owner's code if there is one; no code is not an error. */
    method DeleteReferralCode(userId: int, fault: Option<string>) returns (r: Outcome)
      requires Valid()
      modifies codeStore
      ensures Valid()
      ensures r == (if fault.Some? then Fail(Fault(fault.value)) else Pass)
      ensures r.Pass? ==> userId !in codeStore.byOwner && codeStore.byOwner == old(codeStore.byOwner) - {userId}
      ensures r.Pass? && userId !in old(codeStore.byOwner) ==> codeStore.ownerOf == old(codeStore.ownerOf)
      ensures r.Fail? ==> codeStore.byOwner == old(codeStore.byOwner) && codeStore.ownerOf == old(codeStore.ownerOf)
      ensures codeStore.nextId == old(codeStore.nextId)
    {
      r := codeStore.DeleteReferralCodeByUserID(userId, fault);
    }

    /** The owner's code unless it expired strictly before `now`; the row is
        never removed here. */
    function GetReferralCodeByUserID(userId: int, now: Instant, fault: Option<string>): (r: Result<ReferralCode>)
      reads codeStore
      ensures r.Ok? <==> && fault.None? && userId in codeStore.byOwner
                         && codeStore.byOwner[userId].expiresAt >= now
      ensures r.Ok? ==> r.value == codeStore.byOwner[userId]
      ensures r.Err? ==> r.error == if fault.Some? then Fault(fault.value)
                                    else if userId !in codeStore.byOwner then CodeNotFound
                                    else CodeExpired
    {
      match codeStore.GetReferralCodeByUserID(userId, fault)
      case Found(referral) =>
        if Before(referral.expiresAt, now) then Err(CodeExpired) else Ok(referral)
      case NotFound(e) => Err(e)
      case Failed(e) => Err(e)
    }

    /** The code `code` resolves, at `now`, to an owner whose code has not expired. */
    ghost predicate Redeemable(code: string, now: Instant, codeFault: Option<string>)
      reads codeStore
    {
      && codeFault.None? && code in codeStore.ownerOf
      && codeStore.ownerOf[code] in codeStore.byOwner
      && !Before(codeStore.byOwner[codeStore.ownerOf[code]].expiresAt, now)
    }

    /** Registers a user with a referral code and links them to the code's
        owner. The code is left in place, so it can be redeemed again. */
    method RegisterWithReferralCode(referralCode: string, name: string, email: string, password: string,
                                    now: Instant, salt: Salt, codeFault: Option<string>,
                                    faults: RegisterFaults, linkFault: Option<string>)
      returns (r: Result<User>)
      requires Valid()
      modifies userStore, linkStore
      ensures Valid()
      ensures codeStore.byOwner == old(codeStore.byOwner) && codeStore.ownerOf == old(codeStore.ownerOf)
      // A code that does not resolve, or has expired: no user, no link.
      ensures (codeFault.Some? || referralCode !in old(codeStore.ownerOf)) ==> r == Err(InvalidCode)
      ensures codeFault.None? && referralCode in old(codeStore.ownerOf) && !old(Redeemable(referralCode, now, codeFault)) ==>
                r == Err(CodeExpired)
      ensures !old(Redeemable(referralCode, now, codeFault)) ==>
                && userStore.byEmail == old(userStore.byEmail) && userStore.nextId == old(userStore.nextId)
                && linkStore.links == old(linkStore.links) && linkStore.nextId == old(linkStore.nextId)
      // Registration refused: its error, unchanged; no user, no link.
      ensures old(Redeemable(referralCode, now, codeFault)) && faults.lookup.None? && email in old(userStore.byEmail) ==>
                r == Err(UserAlreadyExists)
      ensures old(Redeemable(referralCode, now, codeFault))
              && !(email !in old(userStore.byEmail) && faults.hash.None? && faults.insert.None?) ==>
                && r.Err?
                && userStore.byEmail == old(userStore.byEmail) && userStore.nextId == old(userStore.nextId)
                && linkStore.links == old(linkStore.links) && linkStore.nextId == old(linkStore.nextId)
      ensures old(Redeemable(referralCode, now, codeFault)) && !(faults.lookup.None? && email in old(userStore.byEmail))
              && !(email !in old(userStore.byEmail) && faults.hash.None? && faults.insert.None?) ==>
                r.Err? && r.error == if faults.hash.Some? then Fault(faults.hash.value)
                                     else if faults.insert.Some? then Fault(faults.insert.value)
                                     else UniqueViolation("users")
      // Registration done: the user stays even when the link cannot be stored.
      ensures old(Redeemable(referralCode, now, codeFault))
              && email !in old(userStore.byEmail) && faults.hash.None? && faults.insert.None? ==>
                var user := User(old(userStore.nextId), name, email, hasher.hash(password, salt));
                && userStore.byEmail == old(userStore.byEmail)[email := user]
                && userStore.nextId == old(userStore.nextId) + 1
                && (linkFault.Some? ==> && r == Err(Fault(linkFault.value))
                                        && linkStore.links == old(linkStore.links)
                                        && linkStore.nextId == old(linkStore.nextId))
                && (linkFault.None? ==>
                      var owner := old(codeStore.ownerOf[referralCode]);
                      var link := Referral(old(linkStore.nextId), owner, user.id);
                      && r == Ok(user)
                      && linkStore.links == old(linkStore.links) + [link]
                      && linkStore.nextId == old(linkStore.nextId) + 1
                      && ReferralsOf(linkStore.links, owner) == ReferralsOf(old(linkStore.links), owner) + [link])
      ensures r.Ok? <==> && old(Redeemable(referralCode, now, codeFault))
                         && email !in old(userStore.byEmail) && faults.hash.None? && faults.insert.None?
                         && linkFault.None?
    {
      var found := codeStore.GetReferralByReferralCode(referralCode, codeFault);
      if !found.Found? {
        return Err(InvalidCode);
      }
      var referral := found.value;
      if Before(referral.expiresAt, now) {
        return Err(CodeExpired);
      }
      var auth := new AuthService(userStore, "", hasher);
      var registered := auth.RegisterUser(name, email, password, salt, faults);
      if registered.Err? {
        return Err(registered.error);
      }
      var user := registered.value;
      ghost var before := linkStore.links;
      var linked := linkStore.CreateReferralLink(referral.userId, user.id, linkFault);
      if linked.Fail? {
        return Err(linked.error);
      }
      ReferralsOfAppend(before, linkStore.links[|before|], referral.userId);
      r := Ok(user);
    }

    /** The links whose referrer is `referrerId`, in the order they were made;
        an empty list when there is none. */
    function GetReferralsByReferrerID(referrerId: int, fault: Option<string>): (r: Result<seq<Referral>>)
      reads linkStore
      ensures r.Err? <==> fault.Some?
      ensures r.Ok? ==> r.value == ReferralsOf(linkStore.links, referrerId)
      ensures r.Ok? ==> forall x :: multiset(r.value)[x] ==
                          if x.referrerId == referrerId then multiset(linkStore.links)[x] else 0
    {
      linkStore.GetReferralsByReferrerID(referrerId, fault)
    }
  }

  /** The read path's expiry boundary: a code is returned up to and including
      its expiry instant, and refused as expired from the next instant on. */
  lemma ExpiryIsStrict(s: ReferralService, userId: int, now: Instant)
    requires userId in s.codeStore.byOwner
    ensures s.GetReferralCodeByUserID(userId, s.codeStore.byOwner[userId].expiresAt, None)
            == Ok(s.codeStore.byOwner[userId])
    ensures now > s.codeStore.byOwner[userId].expiresAt ==>
              s.GetReferralCodeByUserID(userId, now, None) == Err(CodeExpired)
  {
  }
}
