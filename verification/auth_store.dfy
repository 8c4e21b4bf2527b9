/**
 The identity directory: a user list seeded with two accounts, and the
 session (current user and token). Passwords are accepted and never looked
 at; ids and tokens are supplied by the caller.
 */
module AuthStore {
  import opened Options
  import opened Types
  import Seqs

  /** The user list and the session. */
  datatype AuthState = AuthState(users: seq<User>, user: Option<User>, token: Option<string>)

  /** The state after a call and the boolean the call resolves to. */
  datatype AuthOutcome = AuthOutcome(state: AuthState, ok: bool)

  const MockUsers: seq<User> := [
    User("guest1", "John Doe", "guest@example.com", Guest),
    User("admin1", "Admin User", "admin@example.com", Admin)
  ]

  /** No session, the two seed accounts. */
  const Initial: AuthState := AuthState(MockUsers, None, None)

  /** Some account has this email and this role. */
  ghost predicate HasAccount(users: seq<User>, email: string, role: Role) {
    exists i :: 0 <= i < |users| && users[i].email == email && users[i].role == role
  }

  /** Some account, of any role, has this email. */
  ghost predicate EmailTaken(users: seq<User>, email: string) {
    exists i :: 0 <= i < |users| && users[i].email == email
  }

  /** Position `i` holds the first account with this email and role. */
  ghost predicate FirstAccount(users: seq<User>, email: string, role: Role, i: int) {
    && 0 <= i < |users|
    && users[i].email == email && users[i].role == role
    && forall j :: 0 <= j < i ==> !(users[j].email == email && users[j].role == role)
  }

  /**
   Logs in as the first account matching both email and role; the password
   plays no part. A failed login leaves everything as it was.
   */
  function Login(a: AuthState, email: string, password: string, role: Role, token: string): (r: AuthOutcome)
    ensures r.ok <==> HasAccount(a.users, email, role)
    ensures !r.ok ==> r.state == a
    ensures r.ok ==> && r.state.users == a.users
                     && r.state.token == Some(token)
                     && r.state.user.Some?
                     && exists i :: FirstAccount(a.users, email, role, i) && r.state.user.value == a.users[i]
  {
    match Seqs.FindIndex(a.users, (u: User) => u.email == email && u.role == role)
    case None => AuthOutcome(a, false)
    case Some(i) =>
      assert FirstAccount(a.users, email, role, i);
      AuthOutcome(a.(user := Some(a.users[i]), token := Some(token)), true)
  }

  /** Ends the session. */
  function Logout(a: AuthState): (r: AuthState)
    ensures r.user.None? && r.token.None?
    ensures r.users == a.users
  {
    a.(user := None, token := None)
  }

  /**
   Creates a guest account and logs it in, unless some account of either
   role already uses the email.
   */
  function Register(a: AuthState, name: string, email: string, password: string,
                    newId: string, token: string): (r: AuthOutcome)
    ensures !r.ok <==> EmailTaken(a.users, email)
    ensures !r.ok ==> r.state == a
    ensures r.ok ==> var u := User(newId, name, email, Guest);
                     && r.state.users == a.users + [u]
                     && r.state.user == Some(u)
                     && r.state.token == Some(token)
  {
    if Seqs.FindIndex(a.users, (u: User) => u.email == email).Some? then
      AuthOutcome(a, false)
    else
      var u := User(newId, name, email, Guest);
      AuthOutcome(AuthState(a.users + [u], Some(u), Some(token)), true)
  }

  /** The password never changes what a login does. */
  lemma LoginIgnoresPassword(a: AuthState, email: string, p1: string, p2: string, role: Role, token: string)
    ensures Login(a, email, p1, role, token) == Login(a, email, p2, role, token)
  {
  }

  /** A freshly registered account can log in as a guest, whatever password is given. */
  lemma RegisterThenLogin(a: AuthState, name: string, email: string, password: string, newId: string,
                          token: string, password2: string, token2: string)
    requires Register(a, name, email, password, newId, token).ok
    ensures var a' := Register(a, name, email, password, newId, token).state;
            var r := Login(a', email, password2, Guest, token2);
            r.ok && r.state.user == Some(User(newId, name, email, Guest))
  {
    var a' := Register(a, name, email, password, newId, token).state;
    var last := |a'.users| - 1;
    assert FirstAccount(a'.users, email, Guest, last);
  }

  /** The calls a client can make on the directory. */
  datatype AuthEvent =
    | LoginEvent(email: string, password: string, role: Role, token: string)
    | RegisterEvent(name: string, email: string, password: string, newId: string, token: string)
    | LogoutEvent

  function Apply(a: AuthState, e: AuthEvent): AuthState {
    match e
    case LoginEvent(email, password, role, token) => Login(a, email, password, role, token).state
    case RegisterEvent(name, email, password, newId, token) => Register(a, name, email, password, newId, token).state
    case LogoutEvent => Logout(a)
  }

  function Run(a: AuthState, events: seq<AuthEvent>): AuthState
    decreases |events|
  {
    if events == [] then a else Run(Apply(a, events[0]), events[1..])
  }

  /** No two accounts share an email. */
  ghost predicate UniqueEmails(users: seq<User>) {
    forall i, j :: 0 <= i < j < |users| ==> users[i].email != users[j].email
  }

  /** The seed accounts are still first and emails are unique. */
  ghost predicate DirectoryInv(a: AuthState) {
    && |a.users| >= 2
    && a.users[..2] == MockUsers
    && UniqueEmails(a.users)
  }

  /** One call keeps the directory invariant. */
  lemma ApplyKeepsInv(a: AuthState, e: AuthEvent)
    requires DirectoryInv(a)
    ensures DirectoryInv(Apply(a, e))
  {
    if e.RegisterEvent? {
      var r := Register(a, e.name, e.email, e.password, e.newId, e.token);
      if r.ok {
        var users := r.state.users;
        assert users[..2] == a.users[..2];
        forall i, j | 0 <= i < j < |users|
          ensures users[i].email != users[j].email
        {
          if j == |a.users| {
            assert users[i] == a.users[i];
          }
        }
      }
    }
  }

  /** Every sequence of calls keeps the directory invariant. */
  lemma {:induction false} RunKeepsInv(a: AuthState, events: seq<AuthEvent>)
    requires DirectoryInv(a)
    ensures DirectoryInv(Run(a, events))
    decreases |events|
  {
    if events != [] {
      ApplyKeepsInv(a, events[0]);
      RunKeepsInv(Apply(a, events[0]), events[1..]);
    }
  }

  /**
   However the directory has been used, the admin email can never log in
   with the guest role: registration cannot give that email a second account.
   */
  lemma AdminNeverLogsInAsGuest(events: seq<AuthEvent>, password: string, token: string)
    ensures !Login(Run(Initial, events), "admin@example.com", password, Guest, token).ok
  {
    RunKeepsInv(Initial, events);
    var a := Run(Initial, events);
    assert a.users[1] == MockUsers[1];
  }

  /** Registering the seed guest's email again is refused and the user count stays two. */
  lemma DuplicateRegistrationRefused(name: string, password: string, newId: string, token: string)
    ensures var r := Register(Initial, name, "guest@example.com", password, newId, token);
            !r.ok && |r.state.users| == 2
  {
    assert Initial.users[0].email == "guest@example.com";
  }
}
