/** `main` of main.py: the parsed command-line options folded into a configuration,
    the file name each book is saved under, and the run over the user's books. */
module Cli {
  import opened Util
  import opened Session
  import opened Catalog
  import opened Transfer

  /** One parsed option as getopt returns it: the flag and its argument. */
  type Opt = (string, string)

  datatype Kind = Email | Password | Directory | Books | Other

  /** Which branch of the `if/elif` chain a flag takes. */
  function KindOf(flag: string): Kind {
    if flag == "-e" || flag == "--email" then Email
    else if flag == "-p" || flag == "--pass" then Password
    else if flag == "-d" || flag == "--directory" then Directory
    else if flag == "-b" || flag == "--books" then Books
    else Other
  }

  /** `os.path.expanduser` and `os.path.abspath`, which the model does not open up. */
  datatype Paths = Paths(expandUser: string -> string, absPath: string -> string)

  /** The directory an argument of -d names. */
  function Resolve(arg: string, paths: Paths): string {
    if '~' in arg then paths.expandUser(arg) else paths.absPath(arg)
  }

  datatype Config = Config(email: Option<string>, password: Option<string>, root: string, assets: string)

  const Defaults := Config(None, None, "media", "pdf")

  /** One turn of the option loop. */
  function Apply(cfg: Config, opt: Opt, paths: Paths): Config {
    match KindOf(opt.0)
    case Email => cfg.(email := Some(opt.1))
    case Password => cfg.(password := Some(opt.1))
    case Directory => cfg.(root := Resolve(opt.1, paths))
    case Books => cfg.(assets := opt.1)
    case Other => cfg
  }

  /** The configuration after the option loop has seen all of `opts`. */
  function Options(opts: seq<Opt>, paths: Paths): Config {
    if opts == [] then Defaults
    else Apply(Options(opts[..|opts| - 1], paths), opts[|opts| - 1], paths)
  }

  /** The option loop of `main`, applied in order to the parsed options. */
  method ReadOptions(opts: seq<Opt>, paths: Paths) returns (cfg: Config)
    ensures cfg == Options(opts, paths)
  {
    cfg := Defaults;
    var i := 0;
    while i < |opts|
      invariant 0 <= i <= |opts|
      invariant cfg == Options(opts[..i], paths)
    {
      assert opts[..i + 1][..i] == opts[..i];
      cfg := Apply(cfg, opts[i], paths);
      i := i + 1;
    }
    assert opts[..i] == opts;
  }

  /** The setting an option kind controls, read off a configuration. */
  function Setting(cfg: Config, kind: Kind): Option<string> {
    match kind
    case Email => cfg.email
    case Password => cfg.password
    case Directory => Some(cfg.root)
    case Books => Some(cfg.assets)
    case Other => None
  }

  /** The setting one option of this kind gives. */
  function Chosen(kind: Kind, arg: string, paths: Paths): Option<string> {
    if kind == Directory then Some(Resolve(arg, paths))
    else if kind == Other then None
    else Some(arg)
  }

  /** For each kind of option the last occurrence wins. */
  lemma {:induction false} LastOptionWins(opts: seq<Opt>, paths: Paths, kind: Kind, j: nat)
    requires kind != Other && j < |opts| && KindOf(opts[j].0) == kind
    requires forall k :: j < k < |opts| ==> KindOf(opts[k].0) != kind
    ensures Setting(Options(opts, paths), kind) == Chosen(kind, opts[j].1, paths)
  {
    if j < |opts| - 1 {
      var init := opts[..|opts| - 1];
      assert forall k :: j < k < |init| ==> init[k] == opts[k];
      LastOptionWins(init, paths, kind, j);
    }
  }

  /** A kind that never occurs keeps its default: no email, no password, 'media', 'pdf'. */
  lemma {:induction false} DefaultsKept(opts: seq<Opt>, paths: Paths, kind: Kind)
    requires forall k :: 0 <= k < |opts| ==> KindOf(opts[k].0) != kind
    ensures Setting(Options(opts, paths), kind) == Setting(Defaults, kind)
    ensures Setting(Defaults, Directory) == Some("media") && Setting(Defaults, Books) == Some("pdf")
  {
    if opts != [] {
      var init := opts[..|opts| - 1];
      assert forall k :: 0 <= k < |init| ==> init[k] == opts[k];
      DefaultsKept(init, paths, kind);
    }
  }

  /** `not email`: absent or the empty string. */
  predicate Missing(value: Option<string>) {
    value.None? || value.value == ""
  }

  /** Both credentials are present, so `main` goes on to build a User. */
  predicate Ready(cfg: Config) {
    !Missing(cfg.email) && !Missing(cfg.password)
  }

  /** `str.replace(" ", "_")`. */
  function ReplaceSpaces(name: string): (r: string)
    ensures |r| == |name| && ' ' !in r
    ensures forall i :: 0 <= i < |r| ==> r[i] == if name[i] == ' ' then '_' else name[i]
  {
    if name == [] then []
    else [if name[0] == ' ' then '_' else name[0]] + ReplaceSpaces(name[1..])
  }

  /** "{path}/{name}.{fformat}" for a book. */
  function FileName(root: string, productName: string, assets: string): string {
    root + "/" + ReplaceSpaces(productName) + "." + assets
  }

  /** A file name splits back into the root, a '/', the product name with every space
      turned into '_', a '.', and the format. */
  lemma FileNameLayout(root: string, productName: string, assets: string)
    ensures var f := FileName(root, productName, assets);
            var n := |root| + 1 + |productName|;
            && |f| == n + 1 + |assets|
            && f[..|root|] == root && f[|root|] == '/'
            && f[|root| + 1..n] == ReplaceSpaces(productName)
            && ' ' !in f[|root| + 1..n]
            && f[n] == '.' && f[n + 1..] == assets
  {
    var seg := ReplaceSpaces(productName);
    var a := root + "/";
    var b := a + seg;
    var c := b + ".";
    var f := c + assets;
    assert f == FileName(root, productName, assets);
    Split(c, assets);
    Split(b, ".");
    Split(a, seg);
    Split(root, "/");
    assert f[..|b|] == b by {
      assert f[..|c|] == c;
      assert c[..|b|] == b;
    }
    assert f[..|root|] == root by {
      assert b[..|a|] == a && a[..|root|] == root;
    }
    assert f[|root| + 1..|b|] == seg by {
      assert b[|a|..] == seg;
    }
  }

  lemma Split(x: string, y: string)
    ensures (x + y)[..|x|] == x && (x + y)[|x|..] == y
  {
  }

  /** Two products whose names differ only in spaces against underscores are saved
      under the same path, the later download overwriting the earlier one. */
  lemma SpaceAndUnderscoreCollide(root: string, assets: string)
    ensures FileName(root, "My Book", assets) == FileName(root, "My_Book", assets)
  {
  }

  /** Every service `main` calls, as functions. */
  datatype Services = Services(
    paths: Paths,
    auth: AuthService,
    pages: PageService,
    urls: UrlService,
    fetch: string -> Response)

  /** One download performed: where it went, the Authorization header its url was
      obtained with, the url, and what was written. */
  datatype Saved = Saved(filename: string, auth: string, url: string, written: seq<byte>)

  /** A saved entry is this book's: its file name, a url the file-url endpoint gave for
      the book in the chosen format, and the bytes `download_book` writes from that url. */
  predicate Fetched(env: Services, cfg: Config, book: Book, s: Saved) {
    && s.filename == FileName(cfg.root, book.productName, cfg.assets)
    && env.urls(s.auth, book.productId, cfg.assets) == Some(s.url)
    && s.written == Outcome(env.fetch(s.url)).written
  }

  /** The download of a saved entry ran to its end. */
  predicate Completes(env: Services, s: Saved) {
    Outcome(env.fetch(s.url)).status == Completed
  }

  /** The last download performed ended the process, with its own status. */
  predicate EndedInDownload(env: Services, saved: seq<Saved>, status: Status) {
    && saved != [] && !Completes(env, saved[|saved| - 1])
    && status == Outcome(env.fetch(saved[|saved| - 1].url)).status
  }

  /** What one `get_url_book` call gives: the url or the end of the process, the
      Authorization its last request carried, and the header and login count it leaves. */
  datatype Lookup = Lookup(result: Run<string>, auth: string, header: string, logins: nat)

  /** `get_url_book` for a header holding `header`, after `logins` logins. */
  function UrlLookup(env: Services, creds: Credentials, header: string, logins: nat,
                     bookId: string, format: string): Lookup
  {
    if env.urls(header, bookId, format).Some? then
      Lookup(Ok(env.urls(header, bookId, format).value), header, header, logins)
    else
      match TokenFrom(env.auth(creds, logins))
      case Halt(s) => Lookup(Halt(s), header, header, logins + 1)
      case Ok(token) =>
        var r := match env.urls(token, bookId, format)
                 case Some(url) => Ok(url)
                 case None => Halt(Raised(KeyError));
        Lookup(r, token, token, logins + 1)
  }

  /** Where the loop over the books stops: its status, the downloads made, and the
      Authorization entry and login count it leaves. */
  datatype Loop = Loop(status: Status, saved: seq<Saved>, header: string, logins: nat)

  /** The `for book in books` loop of `main`, book by book from the front: a url lookup,
      then a download, until the list ends or a step ends the process. */
  function Downloads(env: Services, cfg: Config, creds: Credentials, books: seq<Book>,
                     header: string, logins: nat): Loop
    decreases |books|
  {
    if books == [] then Loop(Completed, [], header, logins)
    else
      var l := UrlLookup(env, creds, header, logins, books[0].productId, cfg.assets);
      if l.result.Halt? then Loop(l.result.status, [], l.header, l.logins)
      else
        var d := Outcome(env.fetch(l.result.value));
        var s := Saved(FileName(cfg.root, books[0].productName, cfg.assets), l.auth, l.result.value, d.written);
        if d.status != Completed then Loop(d.status, [s], l.header, l.logins)
        else
          var rest := Downloads(env, cfg, creds, books[1..], l.header, l.logins);
          rest.(saved := [s] + rest.saved)
  }

  /** Each saved entry belongs to the book at its position; every download but the last
      completed; a completed loop saved one entry per book; each book costs at most one
      login. */
  predicate SavedInOrder(env: Services, cfg: Config, books: seq<Book>, logins: nat, out: Loop) {
    && |out.saved| <= |books|
    && (forall i :: 0 <= i < |out.saved| ==> Fetched(env, cfg, books[i], out.saved[i]))
    && (forall i :: 0 <= i < |out.saved| - 1 ==> Completes(env, out.saved[i]))
    && (out.status == Completed ==>
          |out.saved| == |books| && (out.saved == [] || Completes(env, out.saved[|out.saved| - 1])))
    && logins <= out.logins <= logins + |books|
  }

  /** What the loop saves is in book order and each book's own. */
  lemma {:induction false} DownloadsSaved(env: Services, cfg: Config, creds: Credentials,
                                          books: seq<Book>, header: string, logins: nat)
    ensures SavedInOrder(env, cfg, books, logins, Downloads(env, cfg, creds, books, header, logins))
    decreases |books|
  {
    if books != [] {
      var out := Downloads(env, cfg, creds, books, header, logins);
      var l := UrlLookup(env, creds, header, logins, books[0].productId, cfg.assets);
      if l.result.Ok? && Outcome(env.fetch(l.result.value)).status == Completed {
        var rest := Downloads(env, cfg, creds, books[1..], l.header, l.logins);
        assert out == rest.(saved := [out.saved[0]] + rest.saved);
        assert Fetched(env, cfg, books[0], out.saved[0]) && Completes(env, out.saved[0]);
        DownloadsSaved(env, cfg, creds, books[1..], l.header, l.logins);
        SavedStep(env, cfg, books, logins, l.logins, rest, out);
      }
    }
  }

  /** One completed download in front of an orderly rest is orderly. */
  lemma SavedStep(env: Services, cfg: Config, books: seq<Book>, logins: nat, logins1: nat,
                  rest: Loop, out: Loop)
    requires books != [] && logins <= logins1 <= logins + 1
    requires SavedInOrder(env, cfg, books[1..], logins1, rest)
    requires |out.saved| > 0 && Fetched(env, cfg, books[0], out.saved[0]) && Completes(env, out.saved[0])
    requires out == rest.(saved := [out.saved[0]] + rest.saved)
    ensures SavedInOrder(env, cfg, books, logins, out)
  {
    FetchedShift(env, cfg, books, rest.saved, out.saved);
    CompletesShift(env, rest.saved, out.saved);
    if out.status == Completed && rest.saved != [] {
      assert out.saved[|out.saved| - 1] == rest.saved[|rest.saved| - 1];
    }
  }

  lemma FetchedShift(env: Services, cfg: Config, books: seq<Book>, rest: seq<Saved>, saved: seq<Saved>)
    requires books != [] && saved != [] && |rest| <= |books| - 1 && saved == [saved[0]] + rest
    requires Fetched(env, cfg, books[0], saved[0])
    requires forall i :: 0 <= i < |rest| ==> Fetched(env, cfg, books[1..][i], rest[i])
    ensures forall i :: 0 <= i < |saved| ==> Fetched(env, cfg, books[i], saved[i])
  {
    forall i | 1 <= i < |saved|
      ensures Fetched(env, cfg, books[i], saved[i])
    {
      assert saved[i] == rest[i - 1] && books[i] == books[1..][i - 1];
    }
  }

  lemma CompletesShift(env: Services, rest: seq<Saved>, saved: seq<Saved>)
    requires saved != [] && saved == [saved[0]] + rest && Completes(env, saved[0])
    requires forall i :: 0 <= i < |rest| - 1 ==> Completes(env, rest[i])
    ensures forall i :: 0 <= i < |saved| - 1 ==> Completes(env, saved[i])
  {
    forall i | 1 <= i < |saved| - 1
      ensures Completes(env, saved[i])
    {
      assert saved[i] == rest[i - 1];
    }
  }

  /** A url lookup fails only when the request under the current header failed, one
      login followed, and either it was refused or the request under its token failed. */
  lemma LookupHalts(env: Services, creds: Credentials, header: string, logins: nat,
                    bookId: string, format: string)
    requires UrlLookup(env, creds, header, logins, bookId, format).result.Halt?
    ensures var l := UrlLookup(env, creds, header, logins, bookId, format);
            && env.urls(l.header, bookId, format).None? && l.logins == logins + 1
            && env.urls(header, bookId, format).None?
            && (|| (l.result.status == Exited(2) && l.header == header && TokenFrom(env.auth(creds, logins)).Halt?)
                || (l.result.status == Raised(KeyError) && TokenFrom(env.auth(creds, logins)) == Ok(l.header)))
  {
  }

  /** The request for `bookId` failed under the Authorization in force after `n` logins
      of a loop that began with `header` after `logins` logins: the starting header while
      no login was made, otherwise the token the last login gave. */
  predicate FailedUnder(env: Services, creds: Credentials, header: string, logins: nat, n: nat,
                        bookId: string, format: string)
  {
    || (n == logins && env.urls(header, bookId, format).None?)
    || (&& logins < n && TokenFrom(env.auth(creds, n - 1)).Ok?
        && env.urls(TokenFrom(env.auth(creds, n - 1)).value, bookId, format).None?)
  }

  /** A loop that stopped short of a download stopped in a url lookup whose first request
      failed under the header then in force; the login that followed was either refused
      (exit 2), or gave a token under which the request failed again (KeyError). */
  predicate StoppedInLookup(env: Services, cfg: Config, creds: Credentials, books: seq<Book>,
                            header: string, logins: nat, out: Loop)
  {
    out.status != Completed && !EndedInDownload(env, out.saved, out.status) ==>
      && |out.saved| < |books|
      && logins < out.logins
      && FailedUnder(env, creds, header, logins, out.logins - 1, books[|out.saved|].productId, cfg.assets)
      && env.urls(out.header, books[|out.saved|].productId, cfg.assets).None?
      && (|| (out.status == Exited(2) && TokenFrom(env.auth(creds, out.logins - 1)).Halt?)
          || (out.status == Raised(KeyError) && TokenFrom(env.auth(creds, out.logins - 1)) == Ok(out.header)))
  }

  /** The loop stops short of a download only in a failed url lookup. */
  lemma {:induction false} DownloadsStop(env: Services, cfg: Config, creds: Credentials,
                                         books: seq<Book>, header: string, logins: nat)
    ensures StoppedInLookup(env, cfg, creds, books, header, logins, Downloads(env, cfg, creds, books, header, logins))
    decreases |books|
  {
    if books != [] {
      var out := Downloads(env, cfg, creds, books, header, logins);
      var l := UrlLookup(env, creds, header, logins, books[0].productId, cfg.assets);
      if l.result.Halt? {
        assert out == Loop(l.result.status, [], l.header, l.logins);
        LookupHalts(env, creds, header, logins, books[0].productId, cfg.assets);
      } else if Outcome(env.fetch(l.result.value)).status == Completed {
        var rest := Downloads(env, cfg, creds, books[1..], l.header, l.logins);
        assert out == rest.(saved := [out.saved[0]] + rest.saved);
        assert || (l.logins == logins && l.header == header)
               || (l.logins == logins + 1 && TokenFrom(env.auth(creds, logins)) == Ok(l.header));
        DownloadsStop(env, cfg, creds, books[1..], l.header, l.logins);
        DownloadsSaved(env, cfg, creds, books[1..], l.header, l.logins);
        StopStep(env, cfg, creds, books, header, logins, l.header, l.logins, rest, out);
      } else {
        assert out.saved == [out.saved[0]] && EndedInDownload(env, out.saved, out.status);
      }
    }
  }

  /** A stop in the rest of the list, after one completed download, is a stop in the list. */
  lemma StopStep(env: Services, cfg: Config, creds: Credentials, books: seq<Book>,
                 header: string, logins: nat, header1: string, logins1: nat, rest: Loop, out: Loop)
    requires books != []
    requires || (logins1 == logins && header1 == header)
             || (logins1 == logins + 1 && TokenFrom(env.auth(creds, logins)) == Ok(header1))
    requires StoppedInLookup(env, cfg, creds, books[1..], header1, logins1, rest)
    requires rest.status != Completed ==> |rest.saved| <= |books[1..]|
    requires |out.saved| > 0 && Completes(env, out.saved[0])
    requires out == rest.(saved := [out.saved[0]] + rest.saved)
    ensures StoppedInLookup(env, cfg, creds, books, header, logins, out)
  {
    if out.status != Completed && !EndedInDownload(env, out.saved, out.status) {
      if rest.saved != [] {
        assert out.saved[|out.saved| - 1] == rest.saved[|rest.saved| - 1];
      }
      assert !EndedInDownload(env, rest.saved, rest.status);
      assert books[|out.saved|] == books[1..][|rest.saved|];
    }
  }

  /** Unless a refused login ended it, the loop leaves the header it started with, or the
      token of the last login it made: a refresh's token stays in the shared header. */
  lemma {:induction false} DownloadsHeader(env: Services, cfg: Config, creds: Credentials,
                                           books: seq<Book>, header: string, logins: nat)
    ensures var out := Downloads(env, cfg, creds, books, header, logins);
            out.status != Exited(2) ==>
              || (out.header == header && out.logins == logins)
              || (logins < out.logins && TokenFrom(env.auth(creds, out.logins - 1)) == Ok(out.header))
    decreases |books|
  {
    if books != [] {
      var l := UrlLookup(env, creds, header, logins, books[0].productId, cfg.assets);
      if l.result.Ok? && Outcome(env.fetch(l.result.value)).status == Completed {
        DownloadsHeader(env, cfg, creds, books[1..], l.header, l.logins);
      }
    }
  }

  /** When every login with these credentials gets the same reply and the header already
      holds its token, no lookup ever exits: each url was obtained under that token. */
  lemma {:induction false} SameReplyEveryLogin(env: Services, cfg: Config, creds: Credentials,
                                               books: seq<Book>, header: string, logins: nat)
    requires forall n: nat :: env.auth(creds, n) == env.auth(creds, logins)
    requires TokenFrom(env.auth(creds, logins)) == Ok(header)
    ensures var out := Downloads(env, cfg, creds, books, header, logins);
            && out.status != Exited(2) && out.header == header
            && forall i :: 0 <= i < |out.saved| ==> out.saved[i].auth == header
    decreases |books|
  {
    if books != [] {
      var l := UrlLookup(env, creds, header, logins, books[0].productId, cfg.assets);
      assert env.auth(creds, l.logins) == env.auth(creds, logins);
      if l.result.Ok? && Outcome(env.fetch(l.result.value)).status == Completed {
        var out := Downloads(env, cfg, creds, books, header, logins);
        var rest := Downloads(env, cfg, creds, books[1..], l.header, l.logins);
        SameReplyEveryLogin(env, cfg, creds, books[1..], l.header, l.logins);
        assert out.saved == [out.saved[0]] + rest.saved;
        forall i | 1 <= i < |out.saved| ensures out.saved[i].auth == header {
          assert out.saved[i] == rest.saved[i - 1];
        }
      }
    }
  }

  /** `main(argv)`, from getopt's result on: `parsed` is None when getopt raised.
      Returns how the process ends and the downloads it made, in order: after a good
      login, the loop over the listing fetched with its token. */
  method Run(parsed: Option<seq<Opt>>, env: Services, store: HeaderStore)
    returns (status: Status, saved: seq<Saved>)
    requires store.Valid()
    modifies store
    ensures store.Valid()
    ensures parsed.None? ==>
              && status == Exited(2) && saved == []
              && store.entries == old(store.entries) && store.logins == old(store.logins)
    ensures parsed.Some? && !Ready(Options(parsed.value, env.paths)) ==>
              && status == Exited(2) && saved == []
              && store.entries == old(store.entries) && store.logins == old(store.logins)
    ensures parsed.Some? && Ready(Options(parsed.value, env.paths)) ==>
              LoggedIn(Options(parsed.value, env.paths), env, old(store.entries), old(store.logins),
                       status, saved, store.entries, store.logins)
  {
    saved := [];
    if parsed.None? {
      return Exited(2), [];
    }
    var cfg := ReadOptions(parsed.value, env.paths);
    if Missing(cfg.email) || Missing(cfg.password) {
      return Exited(2), [];
    }
    status, saved := RunAs(cfg, env, store);
  }

  /** How `main` ends once both credentials are present, from the store's entries and
      login count before to those after: a refused login exits with 2 and saves
      nothing; otherwise the loop runs over the listing fetched with the token. */
  ghost predicate LoggedIn(cfg: Config, env: Services, entries0: map<string, string>, logins0: nat,
                           status: Status, saved: seq<Saved>, entries: map<string, string>, logins: nat)
    requires Ready(cfg)
  {
    var creds := Credentials(cfg.email.value, cfg.password.value);
    var token := TokenFrom(env.auth(creds, logins0));
    if token.Halt? then
      status == Exited(2) && saved == [] && entries == entries0 && logins == logins0 + 1
    else
      var books := Listing(env.pages, token.value, DefaultOffset, DefaultLimit);
      var out := Downloads(env, cfg, creds, books, token.value, logins0 + 1);
      && status == out.status && saved == out.saved
      && entries == entries0["Authorization" := out.header] && logins == out.logins
  }

  /** `main` from `user = User(email, password)` on. */
  method RunAs(cfg: Config, env: Services, store: HeaderStore) returns (status: Status, saved: seq<Saved>)
    requires store.Valid() && Ready(cfg)
    modifies store
    ensures store.Valid()
    ensures LoggedIn(cfg, env, old(store.entries), old(store.logins), status, saved, store.entries, store.logins)
  {
    var made := NewUser(store, cfg.email.value, cfg.password.value, env.auth);
    if made.Halt? {
      return made.status, [];
    }
    var user := made.value;
    assert user.header == store && user.username == cfg.email.value && user.password == cfg.password.value;
    var books, _ := GetBooks(user, env.pages, DefaultOffset, DefaultLimit);
    status, saved := DownloadAll(user, books, cfg, env);
  }

  /** The `for book in books` loop of `main`, step by step: it ends as `Downloads` does,
      and leaves that Authorization entry in the shared header. */
  method DownloadAll(user: User, books: seq<Book>, cfg: Config, env: Services)
    returns (status: Status, saved: seq<Saved>)
    requires user.header.Valid()
    modifies user.header
    ensures user.header.Valid()
    ensures var out := Downloads(env, cfg, Credentials(user.username, user.password), books,
                                 old(user.header.Authorization()), old(user.header.logins));
            && status == out.status && saved == out.saved
            && user.header.entries == old(user.header.entries)["Authorization" := out.header]
            && user.header.logins == out.logins
  {
    ghost var creds := Credentials(user.username, user.password);
    ghost var whole := Downloads(env, cfg, creds, books, user.header.Authorization(), user.header.logins);
    ghost var entries0 := user.header.entries;
    assert entries0 == entries0["Authorization" := user.header.Authorization()];
    saved := [];
    var i := 0;
    while i < |books|
      invariant 0 <= i <= |books|
      invariant user.header.Valid()
      invariant user.header.entries == entries0["Authorization" := user.header.Authorization()]
      invariant var rest := Downloads(env, cfg, creds, books[i..], user.header.Authorization(), user.header.logins);
                whole == rest.(saved := saved + rest.saved)
    {
      ghost var header, logins := user.header.Authorization(), user.header.logins;
      ghost var here := Downloads(env, cfg, creds, books[i..], header, logins);
      DownloadsFront(env, cfg, creds, books, i, header, logins);
      var entry, end := DownloadOne(user, books[i], cfg, env);
      if entry.None? {
        assert here == Loop(end, [], user.header.Authorization(), user.header.logins);
        assert saved + [] == saved;
        return end, saved;
      }
      if end != Completed {
        assert here == Loop(end, [entry.value], user.header.Authorization(), user.header.logins);
        saved := saved + [entry.value];
        return end, saved;
      }
      ghost var rest := Downloads(env, cfg, creds, books[i + 1..], user.header.Authorization(), user.header.logins);
      assert here == rest.(saved := [entry.value] + rest.saved);
      Prepended(whole, saved, here, entry.value, rest);
      saved := saved + [entry.value];
      i := i + 1;
    }
    assert books[i..] == [];
    status := Completed;
  }

  lemma Prepended(whole: Loop, saved: seq<Saved>, here: Loop, entry: Saved, rest: Loop)
    requires whole == here.(saved := saved + here.saved)
    requires here == rest.(saved := [entry] + rest.saved)
    ensures whole == rest.(saved := (saved + [entry]) + rest.saved)
  {
    assert saved + ([entry] + rest.saved) == (saved + [entry]) + rest.saved;
  }

  /** One turn of the loop: the url lookup, then, when it gives a url, the download saved
      under the book's file name. `entry` is None when the lookup ended the process. */
  method DownloadOne(user: User, book: Book, cfg: Config, env: Services)
    returns (entry: Option<Saved>, status: Status)
    requires user.header.Valid()
    modifies user.header
    ensures user.header.Valid()
    ensures var l := UrlLookup(env, Credentials(user.username, user.password),
                               old(user.header.Authorization()), old(user.header.logins),
                               book.productId, cfg.assets);
            && user.header.entries == old(user.header.entries)["Authorization" := l.header]
            && user.header.logins == l.logins
            && if l.result.Halt? then entry == None && status == l.result.status
               else
                 var d := Outcome(env.fetch(l.result.value));
                 && entry == Some(Saved(FileName(cfg.root, book.productName, cfg.assets), l.auth, l.result.value, d.written))
                 && status == d.status
  {
    assert old(user.header.entries) == old(user.header.entries)["Authorization" := user.header.Authorization()];
    var filename := FileName(cfg.root, book.productName, cfg.assets);
    var url, sent := GetUrlBook(user, book.productId, cfg.assets, env.urls, env.auth);
    if url.Halt? {
      return None, url.status;
    }
    var d := DownloadBook(env.fetch(url.value));
    entry, status := Some(Saved(filename, sent[|sent| - 1], url.value, d.written)), d.status;
  }

  /** The loop over `books[i..]` looks up the i-th book first. */
  lemma DownloadsFront(env: Services, cfg: Config, creds: Credentials, books: seq<Book>, i: nat,
                       header: string, logins: nat)
    requires i < |books|
    ensures var l := UrlLookup(env, creds, header, logins, books[i].productId, cfg.assets);
            var out := Downloads(env, cfg, creds, books[i..], header, logins);
            if l.result.Halt? then out == Loop(l.result.status, [], l.header, l.logins)
            else
              var d := Outcome(env.fetch(l.result.value));
              var s := Saved(FileName(cfg.root, books[i].productName, cfg.assets), l.auth, l.result.value, d.written);
              if d.status != Completed then out == Loop(d.status, [s], l.header, l.logins)
              else
                var rest := Downloads(env, cfg, creds, books[i + 1..], l.header, l.logins);
                out == rest.(saved := [s] + rest.saved)
  {
    assert books[i..][0] == books[i] && books[i..][1..] == books[i + 1..];
  }
}
