/** The login session of the portal (src/contexts/AuthContext.tsx): either nobody is logged
    in or one user is, whose role is decided by a fixed list of administrator numbers.
    The copy kept in the browser's local storage is the field `stored`. */
module Auth {
  import opened Wrappers

  /** The `user_role` enumeration of the database. */
  datatype Role = Admin | Customer

  datatype User = User(id: string, phone: string, role: Role, name: string)

  /** The two hard-coded administrator numbers. */
  const AdminNumbers: seq<string> := ["+919999999999", "+918888888888"]

  /** `ADMIN_NUMBERS.includes(phone) ? 'admin' : 'customer'`: exact string comparison. */
  function RoleFor(phone: string): (r: Role)
    ensures r == Admin <==> phone == "+919999999999" || phone == "+918888888888"
  {
    if phone in AdminNumbers then Admin else Customer
  }

  function NameFor(role: Role): (r: string)
    ensures r == "Admin User" <==> role == Admin
    ensures r == "Customer User" <==> role == Customer
  {
    match role
    case Admin => "Admin User"
    case Customer => assert |"Admin User"| != |"Customer User"|; "Customer User"
  }

  /** The user object `login` builds; `id` is the random identifier, which the model takes
      as an input. The one-time password plays no part. */
  function NewUser(id: string, phone: string): (u: User)
    ensures u.id == id && u.phone == phone
    ensures u.role == Admin <==> phone in AdminNumbers
    ensures u.name == "Admin User" <==> u.role == Admin
    ensures u.name == if phone in AdminNumbers then "Admin User" else "Customer User"
  {
    var role := RoleFor(phone);
    User(id, phone, role, NameFor(role))
  }

  /** `user?.phone` where the code tests it for truth: absent when nobody is logged in and
      when the phone is the empty string. */
  function ActivePhone(user: Option<User>): (r: Option<string>)
    ensures r.Some? <==> user.Some? && user.value.phone != ""
    ensures r.Some? ==> r.value == user.value.phone
  {
    if user.Some? && user.value.phone != "" then Some(user.value.phone) else None
  }

  class AuthSession {
    /** The in-memory user, or none when logged out. */
    var user: Option<User>
    /** The persisted copy in local storage (`motorise_user`). */
    var stored: Option<User>
    var isLoading: bool

    /** The provider mounts with whatever local storage holds, and its start-up effect
        restores that user and ends loading. */
    constructor (persisted: Option<User>)
      ensures user == persisted && stored == persisted && !isLoading
    {
      user := persisted;
      stored := persisted;
      isLoading := false;
    }

    /** `login(phone, otp)`: accepts any one-time password, stores the phone unchanged and
        the role derived from it, and persists the same user. */
    method Login(phone: string, otp: string, id: string)
      modifies this
      ensures user == Some(NewUser(id, phone))
      ensures stored == user
      ensures !isLoading
    {
      isLoading := true;
      var role := RoleFor(phone);
      var newUser := User(id, phone, role, NameFor(role));
      user := Some(newUser);
      stored := Some(newUser);
      isLoading := false;
    }

    /** `logout()`: back to no user, in memory and in storage. */
    method Logout()
      modifies this
      ensures user == None && stored == None
      ensures isLoading == old(isLoading)
    {
      user := None;
      stored := None;
    }
  }
}
