/** The `User` class of user.py: credentials, the bearer token it obtains from the
    auth endpoint, and the request header dictionary that every instance shares. */
module Session {
  import opened Util

  const UserAgent: string :=
    "Mozilla/5.0 (Windows NT 6.3; WOW64) AppleWebKit/537.36 " +
    "(KHTML, like Gecko) Chrome/51.0.2704.103 Safari/537.36"

  /** The class-level `header` dictionary as the class body creates it. */
  const InitialHeader: map<string, string> :=
    map["User-Agent" := UserAgent, "Authorization" := ""]

  /** The JSON body posted to the auth endpoint. */
  datatype Credentials = Credentials(username: string, password: string)

  /** What the POST to the auth endpoint gives back: the request raised (NoReply), or a
      reply with its status code and the `data.access` field when the body has one. */
  datatype AuthReply = NoReply | Reply(status: int, access: Option<string>)

  /** The auth endpoint seen as a function of the posted credentials and of the number
      of logins the process made before this one, so that a later login can be refused
      or can hand out a new token. */
  type AuthService = (Credentials, nat) -> AuthReply

  /** What `get_token` does with the reply: returns "Bearer " + access on status 200;
      everything else (another status, a raised request, a body without the access
      field, which raises inside the try block) ends in sys.exit(2). */
  function TokenFrom(reply: AuthReply): (r: Run<string>)
    ensures r.Ok? <==> reply.Reply? && reply.status == 200 && reply.access.Some?
    ensures r.Ok? ==> r.value == "Bearer " + reply.access.value
    ensures r.Halt? ==> r.status == Exited(2)
  {
    match reply
    case Reply(status, Some(access)) =>
      if status == 200 then Ok("Bearer " + access) else Halt(Exited(2))
    case _ => Halt(Exited(2))
  }

  /** The one dictionary `User.header`, a class attribute that all instances alias, and
      the number of POSTs to the auth endpoint the process has made so far. */
  class HeaderStore {
    var entries: map<string, string>
    var logins: nat

    /** The header always holds exactly these two keys and keeps its User-Agent. */
    ghost predicate Valid()
      reads this
    {
      entries.Keys == {"User-Agent", "Authorization"} && entries["User-Agent"] == UserAgent
    }

    /** The dictionary as the class body defines it, before any login. */
    constructor ()
      ensures entries == InitialHeader && logins == 0 && Valid()
    {
      entries := InitialHeader;
      logins := 0;
    }

    function Authorization(): string
      reads this
      requires Valid()
    {
      entries["Authorization"]
    }

    /** `header["Authorization"] = token`: an in-place write of that one entry. */
    method SetAuthorization(token: string)
      requires Valid()
      modifies this
      ensures Valid() && Authorization() == token
      ensures entries == old(entries)["Authorization" := token] && logins == old(logins)
    {
      entries := entries["Authorization" := token];
    }
  }

  class User {
    const username: string
    const password: string
    /** Never reassigned per instance: every User reads and writes the class's dictionary. */
    const header: HeaderStore

    /** The attribute assignments of `__init__` before it asks for a token. */
    constructor (store: HeaderStore, username: string, password: string)
      ensures this.username == username && this.password == password && header == store
    {
      this.username := username;
      this.password := password;
      header := store;
    }

    /** `get_token`: one POST of exactly the stored username and password, counted in
        the shared store; the header itself is not touched. */
    method GetToken(auth: AuthService) returns (r: Run<string>)
      modifies header
      ensures r == TokenFrom(auth(Credentials(username, password), old(header.logins)))
      ensures header.logins == old(header.logins) + 1 && header.entries == old(header.entries)
    {
      var reply := auth(Credentials(username, password), header.logins);
      header.logins := header.logins + 1;
      r := TokenFrom(reply);
    }

    /** `get_header`: the shared dictionary itself, not a copy. */
    method GetHeader() returns (h: HeaderStore)
      ensures h == header
    {
      h := header;
    }

    /** `refresh_header`: exactly one login; a new token overwrites the Authorization
        entry only, and the very dictionary that `get_header` returns is handed back; a
        failed login exits. */
    method RefreshHeader(auth: AuthService) returns (r: Run<HeaderStore>)
      requires header.Valid()
      modifies header
      ensures header.Valid() && header.logins == old(header.logins) + 1
      ensures match TokenFrom(auth(Credentials(username, password), old(header.logins)))
              case Ok(token) =>
                r == Ok(header) && header.entries == old(header.entries)["Authorization" := token]
              case Halt(s) =>
                r == Halt(s) && header.entries == old(header.entries)
    {
      var token := GetToken(auth);
      if token.Halt? {
        return Halt(token.status);
      }
      header.SetAuthorization(token.value);
      r := Ok(header);
    }
  }

  /** The expression `User(username, password)`: either a User whose token now sits in
      the shared header, or sys.exit(2) before the header is touched. */
  method NewUser(store: HeaderStore, username: string, password: string, auth: AuthService)
    returns (r: Run<User>)
    requires store.Valid()
    modifies store
    ensures store.Valid() && store.logins == old(store.logins) + 1
    ensures match TokenFrom(auth(Credentials(username, password), old(store.logins)))
            case Ok(token) =>
              && r.Ok? && r.value.header == store
              && r.value.username == username && r.value.password == password
              && store.entries == old(store.entries)["Authorization" := token]
            case Halt(s) =>
              r == Halt(s) && store.entries == old(store.entries)
  {
    var user := new User(store, username, password);
    var token := user.GetToken(auth);
    if token.Halt? {
      return Halt(token.status);
    }
    user.header.SetAuthorization(token.value);
    r := Ok(user);
  }

  /** Two users built over the class's dictionary see each other's logins and refreshes:
      the second login overwrites the token the first one sends (`afterSecond`, read
      through the first user), and a refresh through the first one changes the token the
      second one sends. A step that is not reached because an earlier login exited is
      None. The three logins are the process's logins number n, n + 1 and n + 2. */
  method SharedHeader(store: HeaderStore, auth: AuthService, first: Credentials, second: Credentials)
    returns (a: Run<User>, b: Option<Run<User>>, afterSecond: Option<string>,
             refreshed: Option<Run<HeaderStore>>)
    requires store.Valid()
    modifies store
    ensures store.Valid()
    ensures var n := old(store.logins);
            && (a.Ok? <==> TokenFrom(auth(first, n)).Ok?)
            && (b.Some? <==> a.Ok?)
            && (b.Some? ==> (b.value.Ok? <==> TokenFrom(auth(second, n + 1)).Ok?))
    ensures afterSecond.Some? <==> b.Some? && b.value.Ok?
    ensures refreshed.Some? <==> afterSecond.Some?
    ensures afterSecond.Some? ==>
              && a.value.header == b.value.value.header == store
              && afterSecond.value == TokenFrom(auth(second, old(store.logins) + 1)).value
    ensures refreshed.Some? ==>
              var third := TokenFrom(auth(first, old(store.logins) + 2));
              && (refreshed.value.Ok? <==> third.Ok?)
              && (refreshed.value.Halt? ==> refreshed.value.status == Exited(2))
              && (refreshed.value.Ok? ==>
                    refreshed.value.value == store
                    && b.value.value.header.Authorization() == third.value)
  {
    b, afterSecond, refreshed := None, None, None;
    a := NewUser(store, first.username, first.password, auth);
    if a.Halt? {
      return;
    }
    var made := NewUser(store, second.username, second.password, auth);
    b := Some(made);
    if made.Halt? {
      return;
    }
    afterSecond := Some(a.value.header.Authorization());
    var r := a.value.RefreshHeader(auth);
    refreshed := Some(r);
  }
}
