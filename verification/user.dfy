/** The user record (data/User.kt). */
module Users {

  const LONG_MIN: int := -0x8000_0000_0000_0000
  const LONG_MAX: int := 0x7fff_ffff_ffff_ffff

  /** Kotlin's `Long`: a 64-bit two's-complement integer. */
  type Long = x: int | LONG_MIN <= x <= LONG_MAX

  /** `a + b` on `Long`: the exact sum, wrapped modulo 2^64 when it overflows. */
  function AddLong(a: Long, b: Long): (r: Long)
    ensures LONG_MIN <= a + b <= LONG_MAX ==> r == a + b
    ensures a + b > LONG_MAX ==> r == a + b - (LONG_MAX - LONG_MIN + 1)
    ensures a + b < LONG_MIN ==> r == a + b + (LONG_MAX - LONG_MIN + 1)
  {
    (a + b - LONG_MIN) % (LONG_MAX - LONG_MIN + 1) + LONG_MIN
  }

  /**
   * A user row. `id` is assigned by the store on insert and is 0 before
   * that; the string fields hold whatever the form captured. The Java-style
   * getters of the source (getFirstName() ... getId()) are the datatype's
   * field selectors `u.firstName` ... `u.id`.
   */
  datatype User = User(
    id: Long,
    firstName: string,
    lastName: string,
    email: string,
    phone: string,
    dob: string,
    address: string)

  /** `User()`: every constructor argument left at its default. */
  function DefaultUser(): (u: User)
    ensures u.id == 0
    ensures u.firstName == u.lastName == u.email == u.phone == u.dob == u.address == ""
  {
    User(0, "", "", "", "", "", "")
  }

  /**
   * `fullName`: the first name, one space, the last name. Both names can be
   * read back from it at the position given by the first name's length.
   */
  function FullName(u: User): (r: string)
    ensures |r| == |u.firstName| + 1 + |u.lastName|
    ensures r[..|u.firstName|] == u.firstName
    ensures r[|u.firstName|] == ' '
    ensures r[|u.firstName| + 1..] == u.lastName
  {
    u.firstName + " " + u.lastName
  }

  /**
   * The persistent table declares `email` as a unique index. This holds of
   * the database store only; the in-memory store of this model does not keep
   * it (see Repository.InsertAllowsDuplicateEmail).
   */
  ghost predicate EmailsUnique(users: seq<User>) {
    forall i, j :: 0 <= i < j < |users| ==> users[i].email != users[j].email
  }
}
