# packtpub-downloader, modelled in Dafny

The script logs in to the Packt catalog service, lists every product the user owns page
by page, asks for each product's download url in the requested format, and streams each
file to `<directory>/<product name>.<format>` while it draws a progress bar. This project
models that logic:

- `Session` (session.dfy) models the `User` class of user.py. `HeaderStore` is the one
  class-level `header` dictionary; it also counts the POSTs made to the auth endpoint, so
  that each login of the process can get its own reply. `User` keeps its username and password and a `const`
  reference to that shared dictionary. `NewUser` is the expression `User(email, password)`,
  including its `sys.exit(2)` when login fails.
- `Catalog` (catalog.dfy) models `get_books`, the paging loop, and `get_url_book`, which
  refreshes the token and retries once.
- `Transfer` (transfer.dfy) models `download_book`: the chunk loop, the byte counter, the
  chunk size and the 50-cell bar.
- `Cli` (cli.dfy) models `main`: the fold over the parsed options, the file name, and the
  loop over the books.
- `Util` (util.dfy) holds the shared pieces: `Option`, `byte`, how the process ends
  (`Status`: completed, `sys.exit(code)`, or an uncaught exception), and Python's
  `str * n`.

The model has no network and no files. Each HTTP endpoint is a function passed in as a
parameter:

- the auth POST: credentials, and the number of logins the process made before, to a
  reply, so a later login can be refused or can get a new token;
- the products GET: Authorization header, offset and limit to `count` and `data`;
- the file-url GET: Authorization header, book id and format to the `data` field, if the
  reply has one;
- the streamed GET: url to content-length and chunks.

`os.path.expanduser` and `os.path.abspath` are also function parameters. A file is the
sequence of bytes written to it. A bar is the string of its 50 cells.

Some facts about the script that the model keeps:

- `get_books` sends `count // limit + 1` requests (floor division, plus one). When the
  count is a multiple of the limit, the last request is for an empty page at offset
  `count`. See `ExactMultipleRequestsPageAtCount`.
- The header is a class-level dictionary that every `User` shares. See `SharedHeader`.
- A failed url lookup is followed by exactly one login and, if that login succeeds, one
  more request.
- The file name is the name with each space replaced by `_`, and nothing else changed.
  Two names that differ only there collide. See `SpaceAndUnderscoreCollide`.

## Model

| member | source | states |
|---|---|---|
| `Session.TokenFrom` | user.py:26-41 | a token comes back only on status 200 with an access field, and it is "Bearer " + access; every other reply, including a raised request or a body without the field, ends in exit status 2 |
| `Session.HeaderStore.constructor` | user.py:15-19 | the shared dictionary starts with the fixed User-Agent and an empty Authorization, before any login |
| `Session.HeaderStore.SetAuthorization` | user.py:24 | writes the one Authorization entry in place (as `__init__` and `refresh_header` both do) and keeps the header valid; every other entry and the login count are unchanged |
| `Session.User.constructor` | user.py:21-23 | the username and password are stored as given, and the header is the shared dictionary |
| `Session.User.GetToken` | user.py:26-41 | one POST, counted once: the reply judged is the endpoint's answer, at this login number, to exactly the stored username and password; the header entries are not touched |
| `Session.User.GetHeader` | user.py:43-44 | returns the shared dictionary object itself |
| `Session.User.RefreshHeader` | user.py:46-52 | exactly one login is made; on success only the Authorization entry is overwritten with its token, in place, and the returned dictionary is the one `get_header` returns; on failure the process exits with 2 and the entries are unchanged |
| `Session.NewUser` | user.py:21-24 | one login; a built user stores the credentials verbatim and shares the class dictionary, whose Authorization is then "Bearer " + access; a failed login exits with 2 before the header is written |
| `Session.SharedHeader` | user.py:15-24 | all users alias one header: after a second login, the Authorization read through the first user is the second user's token; a refresh through the first user, the third login, either exits with 2 or puts its token in the header the second user sends; each step is reached exactly when the earlier logins succeed |
| `Catalog.MorePages` | main.py:30 | the `range(count // limit)` bound k satisfies k*limit <= count < k*limit + limit for a non-negative count, and is 0 when count < limit |
| `Catalog.PageCount` | main.py:26-35 | the number of page requests, `count // limit + 1`, at least one |
| `Catalog.Offsets` | main.py:26-32 | the k-th offset requested is offset0 + k*limit |
| `Catalog.Schedule` | main.py:26-32 | the offsets requested, whose number is fixed by the first reply's count; its shape is `ScheduleShape` |
| `Catalog.Collect` | main.py:28-35 | the pages' data joined in request order; one more page appends its data alone (`CollectStep`) |
| `Catalog.Listing` | main.py:13-36 | the list `get_books` returns: the data of the scheduled pages; against a slicing stub it is the list itself (`ListingOfSlices`) |
| `Catalog.GetBooks` | main.py:13-36 | the offsets requested are the schedule fixed by the first reply's count, sent with the user's current header; the result is the in-order concatenation of the pages' data |
| `Catalog.ScheduleShape` | main.py:26-32 | count//limit + 1 requests, starting at offset0 and strictly increasing by exactly limit; the last offset L (from 0) satisfies L <= count < L + limit |
| `Catalog.ExactMultipleRequestsPageAtCount` | main.py:30-32 | when limit divides count, count/limit + 1 requests are made and the last one starts at count |
| `Catalog.PaginationOf101By25` | main.py:26-32 | a count of 101 with pages of 25 requests offsets 0, 25, 50, 75, 100 |
| `Catalog.CollectSlices` | main.py:28-35 | against a slice-serving stub, n pages joined give the first min(n*limit, length) items |
| `Catalog.ListingOfSlices` | main.py:28-36 | against a stub that serves slices of a list and reports its length, the result is the list itself: nothing is dropped or duplicated |
| `Catalog.GetUrlBook` | main.py:39-52 | if the first reply has data, that data is returned after one request, with no login and the header unchanged; otherwise exactly one login is made, and either it is refused and the process exits with 2 with the header unchanged, or the header gets its token and one more request is sent with it, whose data is returned or whose missing field raises KeyError; a returned url is always the reply to the last request sent |
| `Util.Repeat` | main.py:76-77 | `c * n` has max(n, 0) characters, all equal to c |
| `Transfer.TruncDiv` | main.py:75 | `int(a / b)` is the quotient rounded toward zero: Abs(q*b) <= Abs(a) < Abs(q*b) + Abs(b), and q is 0 or has the sign of a/b; on non-negative operands it is floor division |
| `Transfer.ChunkSize` | main.py:70 | the chunk size is max(int(total/1000), 1 MiB), so every chunk request is at least 1 MiB |
| `Transfer.Done` | main.py:75 | the number of full cells, `int(50*downloaded/total)`; its range is `BarHasFiftyCells` |
| `Transfer.Bar` | main.py:76-77 | done full cells and then 50 - done dots |
| `Transfer.Flatten` | main.py:73 | the chunks written, joined in order |
| `Transfer.NonEmpty` | main.py:71 | the chunks `if chunk:` lets through, in order |
| `Transfer.Received` | main.py:72 | the `downloaded` counter: the sum of the chunks' lengths |
| `Transfer.FirstNonEmpty` | main.py:71-75 | what a zero content-length writes before dividing by zero: the first non-empty chunk |
| `Transfer.Progress` | main.py:71-77 | one bar after each non-empty chunk, for the bytes received up to and including it |
| `Transfer.DownloadBook` | main.py:55-80 | the chunk loop leaves exactly `Outcome` of the reply: the bytes, the counter, the bars and the status |
| `Transfer.Outcome` | main.py:61-80 | without a content-length, NameError is raised and the file is left empty; otherwise the bytes written are the non-empty chunks joined in order, `downloaded` is their total length, and one bar is drawn per non-empty chunk; a content-length of 0 writes the first non-empty chunk and then raises ZeroDivisionError |
| `Transfer.ChunkStep` | main.py:71-77 | one more chunk extends the bytes written, the counter and the bars drawn by that chunk alone |
| `Transfer.FirstNonEmptyAt` | main.py:71-75 | the first non-empty chunk after only empty ones is the one the zero-length case writes before dividing by zero |
| `Transfer.NoNonEmpty` | main.py:71 | when every chunk is empty, nothing is written |
| `Transfer.EmptyChunksChangeNothing` | main.py:71-73 | writing only the non-empty chunks writes exactly the concatenation of all chunks, and counts the same number of bytes |
| `Transfer.ReceivedIsWritten` | main.py:72-73 | the `downloaded` counter equals the number of bytes written |
| `Transfer.OutcomeCountsWritten` | main.py:67-73 | for every reply the counter ends equal to the number of bytes written, and with a non-zero content-length every chunk is written in full, in order, and the call completes |
| `Transfer.BarHasFiftyCells` | main.py:75-77 | while 0 <= downloaded <= total, done is between 0 and 50, and the bar is done full cells and then dots, 50 cells in all; it is full once downloaded == total |
| `Transfer.BarCells` | main.py:76-77 | done full cells and 50 - done dots make 50 cells when 0 <= done <= 50 |
| `Transfer.ReceivedGrows` | main.py:72 | the counter never decreases from one chunk to the next |
| `Transfer.ProgressBarsHaveFiftyCells` | main.py:70-78 | when the bytes received do not exceed the content-length, every bar drawn has 50 cells |
| `Cli.ReadOptions` | main.py:100-109 | the option loop, applied in order from the defaults, gives `Options` of the parsed list |
| `Cli.KindOf` | main.py:101-108 | which branch of the option chain a flag takes: -e/--email, -p/--pass, -d/--directory, -b/--books, or none |
| `Cli.Resolve` | main.py:106-107 | the -d argument goes through expanduser when it contains '~', and through abspath otherwise |
| `Cli.Apply` | main.py:100-109 | one turn of the option loop changes only the setting of the flag's kind; see `LastOptionWins` and `DefaultsKept` |
| `Cli.Options` | main.py:85-109 | the configuration after the loop: the defaults, then each option in order |
| `Cli.LastOptionWins` | main.py:100-109 | for each option kind, the last occurrence sets the value: the argument as given for -e, -p and -b, and the resolved path for -d |
| `Cli.DefaultsKept` | main.py:85-88 | an option kind that never occurs keeps its default: no email, no password, 'media', 'pdf' |
| `Cli.Missing` | main.py:112 | `not value`: the option is absent or the empty string |
| `Cli.Ready` | main.py:112 | both the email and the password are present and non-empty |
| `Cli.ReplaceSpaces` | main.py:123 | the name segment is as long as the product name, has every space replaced by '_' and every other character kept, and contains no space |
| `Cli.FileName` | main.py:122-123 | "{path}/{name}.{fformat}" with spaces in the name replaced; its layout is `FileNameLayout` |
| `Cli.FileNameLayout` | main.py:122-123 | the target splits into the root, '/', the space-free name segment, '.', and the format |
| `Cli.SpaceAndUnderscoreCollide` | main.py:122-123 | "My Book" and "My_Book" get the same target path |
| `Cli.Run` | main.py:83-126 | a getopt error, or a missing or empty email or password, exits with 2 with no login and the header untouched; otherwise `main` ends as `LoggedIn` says |
| `Cli.RunAs` | main.py:116-126 | from `User(email, password)` on, the run ends as `LoggedIn` says |
| `Cli.LoggedIn` | main.py:116-126 | a refused login exits with 2, saves nothing and leaves the header; otherwise the books are the listing fetched with the token and the run is the loop `Downloads` over them, starting from that token and the next login number, whose last Authorization stays in the header |
| `Cli.DownloadAll` | main.py:121-126 | the loop over the books ends with the status and downloads of `Downloads` for the header and login count it starts with, and leaves that loop's last Authorization in the shared header and its login count |
| `Cli.DownloadOne` | main.py:122-126 | one turn: the url lookup as `UrlLookup` says, then, for a url, the download from it saved under the book's file name with its `download_book` bytes and status |
| `Cli.UrlLookup` | main.py:45-52 | `get_url_book` on plain values: the reply under the current header, else one login and, if it succeeds, one request under its token |
| `Cli.LookupHalts` | main.py:46-52 | a lookup ends the process only after the request under the current header failed and one login followed: refused (exit 2, header kept) or with its token failing again (KeyError) |
| `Cli.Downloads` | main.py:121-126 | the loop on values: per book from the front, a lookup, then a download, until the list ends or a step ends the process |
| `Cli.DownloadsSaved` | main.py:121-126 | the i-th entry belongs to the i-th book (its file name, a url the endpoint gave for that book under the header it was sent with, the bytes downloaded from that url); every download but the last completed; a completed loop saved one entry per book; each book costs at most one login |
| `Cli.DownloadsStop` | main.py:46-52 | a loop that stops short of a failed download stopped in the next book's lookup: its first request failed under the header in force before it (the starting header if no login was made yet, otherwise the token of the last login), and the login after it was either refused (exit 2) or gave a token under which the request failed again (KeyError) |
| `Cli.DownloadsHeader` | user.py:50 | unless a refused login ended it, the loop leaves the header it started with and no login, or the token of its last login: a refresh's token stays in the shared header |
| `Cli.SameReplyEveryLogin` | main.py:46-52 | when every login gets the same reply and the header already holds its token, no lookup exits with 2 and every url was obtained under that token |
| `Cli.Fetched` | main.py:122-126 | the relation between a book and its saved entry: its file name, a url the endpoint gave for the book under the entry's Authorization, and the bytes `download_book` writes from that url |

## Left out

- Real HTTP, JSON decoding, `open`, file writes, `flush`, terminal output and every `print` are left out. Services are function parameters, the file is the byte sequence written, and the bar is the string of its cells without the `\r[`/`]` frame.
- The URL constants of config.py and the URL formatting are left out. Each endpoint is a function of the values that the URL and header carry.
- `getopt` itself is not modelled. Its result is an input, with None standing for `GetoptError`.
- `os.path.expanduser` and `os.path.abspath` are opaque function parameters.
- `Transfer.TruncDiv`: models `int(a / b)` on Python floats as exact truncating integer division. Float rounding on very large operands is not modelled.
- `Transfer.DownloadBook`: a content-length header that `int()` cannot parse (ValueError) is not modelled; the header arrives already parsed or absent.
- `Transfer.DownloadBook`: the no-content-length branch is only the NameError it raises, because the name it uses, `response`, is undefined. No download is invented for it.
- `Catalog.GetBooks`: a products reply without `count` or `data` would raise KeyError. This is not modelled; every page reply has both fields.
- `Catalog.GetUrlBook`: a `data` value that is not a string, such as JSON null passed on to the download, is not modelled.
- Python's exit status for an uncaught exception is shown as `Raised(error)` and not as a number.
- `Cli.DownloadAll`: `open(filename, 'wb')` never fails in the model; the error `open` raises when the target directory does not exist (the script never creates `media` or the `-d` directory) is not modelled.
- `Catalog.GetUrlBook`: the file-url endpoint's reply depends only on the Authorization header, the book and the format, not on when it is asked; a token that expires during the run shows only as the endpoint refusing that token for the books asked afterwards.
- `Cli.Downloads`: a book entry without `productName` or `productId` would raise KeyError (main.py:123, main.py:125) and end the run. This is not modelled; every `Catalog.Book` carries both fields.
