/** Users as the access checks, serializers and views see them.

    A stored user row is the value `UserData`; an ORM instance whose attributes
    the serializers and views assign one by one before saving is the class
    `User`, whose `Data()` is the row it would save. Password hashing is an
    oracle: `Hashed(raw)` stands for the salted hash of `raw`, and checking a
    password succeeds exactly for the raw password that was hashed. */
module Accounts {
  import opened Util
  import opened Roles

  /** Primary key of a user row. */
  type UserId = int

  /** What the access checks read of the requesting user: its key and its role. */
  datatype Actor = Actor(id: UserId, role: Option<Role>)

  datatype Credential = NoPassword | Hashed(raw: string)

  /** `check_password`: only the raw password that was hashed matches; a user created
      without a password matches nothing. */
  predicate CheckPassword(c: Credential, raw: string) {
    c.Hashed? && c.raw == raw
  }

  datatype UserData = UserData(
    id: UserId,
    email: string,
    username: string,
    firstName: string,
    middleName: string,
    lastName: string,
    role: Option<Role>,
    profileImage: string,
    phoneNumber: string,
    isActive: bool,
    isStaff: bool,
    credential: Credential)

  function ActorOf(u: UserData): Actor {
    Actor(u.id, u.role)
  }

  /** An ORM instance of a user: attributes are assigned in place, then saved. */
  class User {
    const id: UserId
    var email: string
    var username: string
    var firstName: string
    var middleName: string
    var lastName: string
    var role: Option<Role>
    var profileImage: string
    var phoneNumber: string
    var isActive: bool
    var isStaff: bool
    var credential: Credential

    /** The row this instance holds. */
    function Data(): UserData
      reads this
    {
      UserData(id, email, username, firstName, middleName, lastName, role,
               profileImage, phoneNumber, isActive, isStaff, credential)
    }

    /** An instance loaded from the row `d`. */
    constructor Load(d: UserData)
      ensures Data() == d
    {
      id := d.id;
      email := d.email;
      username := d.username;
      firstName := d.firstName;
      middleName := d.middleName;
      lastName := d.lastName;
      role := d.role;
      profileImage := d.profileImage;
      phoneNumber := d.phoneNumber;
      isActive := d.isActive;
      isStaff := d.isStaff;
      credential := d.credential;
    }
  }
}
