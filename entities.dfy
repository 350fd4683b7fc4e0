/** The records the services pass around, and the model of Go's clock values. */
module Entities {

  /** A `time.Time`, as nanoseconds since the Unix epoch. */
  type Instant = int

  /** A `time.Duration`, in nanoseconds; it may be negative or zero. */
  type Duration = int

  const Second: int := 1_000_000_000
  const Hour: int := 3600 * Second

  /** `t.Before(u)`: strictly earlier. */
  predicate Before(t: Instant, u: Instant)
  {
    t < u
  }

  /** `t.Unix()`: whole seconds since the epoch, rounded towards minus infinity
      (Dafny's `/` with a positive divisor rounds the same way). */
  function UnixSeconds(t: Instant): int
  {
    t / Second
  }

  /** A registered user; `id` is assigned by the user store on insert. */
  datatype User = User(id: int, name: string, email: string, hashedPassword: string)

  /** A referral code owned by user `userId`; `id` is assigned by the code store. */
  datatype ReferralCode = ReferralCode(id: int, userId: int, code: string, expiresAt: Instant)

  /** A referrer-to-referee link; `id` is assigned by the link store. */
  datatype Referral = Referral(id: int, referrerId: int, refereeId: int)
}
