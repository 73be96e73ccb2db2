# Filesystem gateway and Brave Search proxy, modelled in Dafny

This project models the two FastAPI servers of the repository and proves
properties of the model:

- **The filesystem gateway** (`filesystem-mcp-server.py`) lists and reads
  files. Every request goes through the same steps:
  - the optional `X-MCP-API-Key` gate;
  - the path guard `safe_path`, which applies `os.path.abspath` and then a
    raw `str.startswith` test against `MCP_BASE_PATH`;
  - the handler itself:
    - `list_files` lists in shallow mode (`os.listdir`) or recursive mode
      (top-down `os.walk`);
    - `read_file` decodes the file in text mode and falls back to base64 on
      `UnicodeDecodeError`.
- **The search proxy** (`brave-search-mcp-server.py`) has the same gate. It
  checks that `BRAVE_API_KEY` is configured, sends one upstream request, and
  reshapes the decoded upstream JSON into a `SearchResponse`.

The model is divided into these modules:

| module | file | what it holds |
|---|---|---|
| `Wrappers`, `Octets`, `Json` | wrappers.dfy, octets.dfy, json.dfy | Option/Result, bytes, decoded JSON values |
| `Http` | http.dfy | `HTTPException` with status and detail; the Python exceptions that become 500; request fields with pydantic defaults |
| `AccessGate` | access_gate.dfy | `get_api_key`, shared by both servers |
| `PosixPath` | posix_path.dfy | `str.split('/')`, `'/'.join`, `os.path.join`, `os.path.normpath`, `os.path.abspath` |
| `PathGuard` | path_guard.dfy | `safe_path`, and what its character-prefix test does and does not guarantee |
| `FsTree` | fs_tree.dfy | the filesystem as an immutable tree (`File(bytes)` / `Dir(ordered, uniquely named entries)`), lookup, `os.listdir`, and `Desc`, the reference walk order |
| `Walking` | walking.dfy | the records `list_files` builds, `os.walk` as the triples it yields, and the walk-order listing those loops must produce |
| `Lister` | lister.dfy | the two enumeration loops of `list_files` as methods, proved against `Walking` |
| `PyInt` | py_int.dfy | Python's `str(n)` of an integer, and `int(s)` on decimal text as its partner |
| `Utf8`, `Newlines`, `Base64` | utf8.dfy, newlines.dfy, base64.dfy | strict UTF-8 (section 4 of RFC 3629), universal-newline translation, base64 (section 4 of RFC 4648) |
| `FileServer` | file_server.dfy | `GET /`, `list_files`, `read_file` |
| `SearchServer` | search_server.dfy | `GET /`, `get_brave_api_key`, request defaults, result shaping, `next_offset`, `search` |

The model abstracts its inputs as parameters:
- **Configuration**: `MCP_API_KEY`, `MCP_BASE_PATH`, `BRAVE_API_KEY` and the process's working directory.
- **The filesystem**: an immutable tree.
- **Other codecs**: codecs other than UTF-8 are an uninterpreted decoder function.
- **The upstream search call**: a function from the request sent to the reply received.
- **pydantic**: version 1, with its default coercion. A `str` field keeps a string and turns an integer, a float or a bool into its `str()`; `null` and lists or objects are refused. An `int` field keeps an integer and turns a bool into 0 or 1. Under this version `FileInfo(modified=st_mtime)` stores the float's text, so a listing does not fail on it.

Behaviour of the code worth noting:
- **Containment is a character-prefix test, not segment-wise.** Base `/data` admits `/data2/x` (`PathGuard.SiblingAccepted`).
- **Listing a regular file.** In recursive mode it gives an empty list, because `os.walk` swallows the `scandir` error. In shallow mode it is a 500 from `NotADirectoryError`.
- **A successful read is labelled with the encoding name** (default `"utf-8"`). Its content is the decoded text with universal newlines applied.
- **Paths are normalised with `abspath`, not `realpath`**, so symbolic links are not resolved.

## Model

| member | source | states |
|---|---|---|
| `AccessGate.GetApiKey` | filesystem-mcp-server.py:26-37 | the gate lets a request through iff `MCP_API_KEY` is unset or empty, or the header equals it exactly; it returns None when unset and the header otherwise; every refusal is 403 "Invalid API key" |
| `AccessGate.GateCases` | brave-search-mcp-server.py:29-40 | the search proxy's copy of the gate has the same three cases: unset allows, an exact match allows, anything else is 403 |
| `PosixPath.Split` | filesystem-mcp-server.py:67 | `str.split('/')`, as `normpath` uses it, gives at least one piece and no piece holds `/` |
| `PosixPath.SplitJoinAll` | filesystem-mcp-server.py:67 | joining separator-free pieces with `/` and splitting the result gives back the same pieces |
| `PosixPath.NormPathAbs` | filesystem-mcp-server.py:67 | `normpath` of an absolute path is `/` followed by its remaining proper segments joined with `/` |
| `PosixPath.AbsPathRelativeName` | filesystem-mcp-server.py:67 | `abspath` of a relative proper name names that name one segment below the working directory |
| `PosixPath.NormPathNormal` | filesystem-mcp-server.py:67 | `normpath` of an absolute path has no empty, `.` or `..` segment, and normalising it again changes nothing |
| `PosixPath.AbsPathNormal` | filesystem-mcp-server.py:67 | against an absolute working directory, `abspath` gives an absolute normal path and is idempotent |
| `PosixPath.SegmentsJoin` | filesystem-mcp-server.py:98 | `os.path.join(root, name)` with a proper name names the path one segment below `root` |
| `PosixPath.AbsPathOfNormal` | filesystem-mcp-server.py:67 | `abspath` returns a path made of `/` and proper components unchanged, and that path names exactly those components |
| `PosixPath.JoinAllSplit` | filesystem-mcp-server.py:67 | splitting on `/` and joining back with `/` is the identity |
| `PathGuard.SafePath` | filesystem-mcp-server.py:63-78 | an accepted path is always `abspath(path)`; a refusal happens only when a base is configured, and is a 403 |
| `PathGuard.UncheckedWithoutBase` | filesystem-mcp-server.py:63-78 | with no base configured, `safe_path` returns the normalised absolute path unchecked; that path is absolute and normal, and `abspath` leaves it unchanged |
| `PathGuard.JoinAllPrefix` | filesystem-mcp-server.py:72 | on normal paths, `startswith` holds iff every base segment but the last equals the path's segment at the same depth and the base's last segment is a character prefix of the path's segment there |
| `PathGuard.AcceptedIffCharPrefixed` | filesystem-mcp-server.py:67-76 | with a base, a path is accepted iff the segments of `abspath(base)` character-prefix those of `abspath(path)` as above; otherwise it is refused with 403 |
| `PathGuard.DescendantAccepted` | filesystem-mcp-server.py:67-76 | every segment-wise descendant of the base, the base included, is accepted |
| `PathGuard.AcceptedStaysBelowParent` | filesystem-mcp-server.py:67-76 | after normalisation an accepted path lies strictly below the base's parent directory, so `..` cannot climb out of it, and its segment at the base's depth starts with the base's last segment; it need not lie below the base itself |
| `PathGuard.SiblingAccepted` | filesystem-mcp-server.py:72 | under a base `/name`, every path `/name<suffix>/x` is accepted unchanged (for instance `/data2/x` under `/data`), although it is not segment-wise within the base |
| `PathGuard.DotDotEscapeRefused` | filesystem-mcp-server.py:67-76 | `/d/../e` normalises to `/e` before the test, and under base `/d` it is refused whenever `d` is not a character prefix of `e` (for instance `/data/../etc` under `/data`) |
| `FsTree.ListDirNames` | filesystem-mcp-server.py:119 | `os.listdir` succeeds exactly on directories; its names are unique and proper, and each, joined to the path, exists |
| `Walking.IsDirChild` | filesystem-mcp-server.py:121-122 | `os.path.isdir(os.path.join(path, item))` holds exactly for the children that are directories |
| `Walking.OsWalkTop` | filesystem-mcp-server.py:96 | `os.walk` yields nothing unless its top is a directory; its first triple is the top itself; every name in `dirs` is a subdirectory, every name in `filenames` an existing non-directory, and every child of the top appears in the list of its kind |
| `FsTree.LookupJoin` | filesystem-mcp-server.py:121 | joining a directory's path with one of its `listdir` names looks up exactly that child |
| `FsTree.DescSound` | filesystem-mcp-server.py:96 | every item of the reference walk order is a node strictly below the walked directory, reached by its relative names |
| `FsTree.DescComplete` | filesystem-mcp-server.py:96 | every node strictly below the walked directory appears in the reference walk order |
| `FsTree.DescDistinct` | filesystem-mcp-server.py:96 | no relative path appears twice in the reference walk order |
| `FsTree.DescCount` | filesystem-mcp-server.py:96 | the walk order of a subtree with N files and M subdirectories has N + M items |
| `Lister.ListShallow` | filesystem-mcp-server.py:118-131 | shallow mode gives one record per `listdir` child, in that order, with `name = item` and `path = join(path, item)`; `size` is None iff `is_dir`, and is the child's length otherwise; on a regular file it is a 500 from `NotADirectoryError` |
| `Lister.AppendStep` | filesystem-mcp-server.py:97-117 | for one `os.walk` triple, the body appends the directory records and then the file records |
| `Lister.AppendDirs` | filesystem-mcp-server.py:97-106 | the directory loop appends, in order, one record per name with `path = join(root, name)`, `is_dir` true and no size |
| `Lister.AppendFiles` | filesystem-mcp-server.py:108-117 | the file loop appends, in order, one record per name with `path = join(root, name)`, `is_dir` false and the `st_size` of that path |
| `Lister.WalkFacts` | filesystem-mcp-server.py:96-117 | flattening what the loop appends for every `os.walk` triple gives the reference walk-order listing, and every `os.stat` in it finds its path |
| `Lister.ListRecursive` | filesystem-mcp-server.py:95-117 | recursive mode's output is exactly the walk-order listing of every descendant: per directory, subdirectories before files, then each subdirectory in turn |
| `Lister.ListingEntriesResolve` | filesystem-mcp-server.py:95-117 | every record of the recursive listing names an existing node other than the root; `is_dir` gives its kind, and `size` is present exactly for files and equals `st_size` |
| `Lister.ListingPathsDistinct` | filesystem-mcp-server.py:95-117 | no path appears twice in the recursive listing |
| `Lister.ListingComplete` | filesystem-mcp-server.py:95-117 | every node strictly below the listed directory has a record in the recursive listing |
| `Lister.ListingCount` | filesystem-mcp-server.py:95-117 | a subtree with N files and M subdirectories gives N + M records |
| `FileServer.ReadRoot` | filesystem-mcp-server.py:81-83 | `GET /` gives the status message exactly when the gate lets the request through, and 403 otherwise |
| `FileServer.ListFiles` | filesystem-mcp-server.py:86-138 | in order: the gate's 403, `safe_path`'s 403 passed on unchanged, then 404 "Path not found" before any enumeration; then the recursive listing, the shallow listing of a directory, or a 500 for a shallow listing of a file |
| `FileServer.EncodingOf` | filesystem-mcp-server.py:151 | the codec is "utf-8" exactly when the request gives none, gives "" or gives "utf-8"; otherwise it is the name given |
| `FileServer.DecodeAs` | filesystem-mcp-server.py:153-156 | under "utf-8", reading yields text iff the bytes are valid UTF-8, never raises `LookupError`, and the text re-encodes to the file's bytes |
| `FileServer.ReadFile` | filesystem-mcp-server.py:141-168 | every failure of `read_file` has status 400, 403, 404 or 500 |
| `FileServer.ReadFileChecks` | filesystem-mcp-server.py:143-149 | in order: the gate's 403, `safe_path`'s 403, 404 "File not found", then 400 "Cannot read directory" |
| `FileServer.ReadFileText` | filesystem-mcp-server.py:153-157 | a file that decodes is returned as its text with universal newlines applied, so holding no "\r", labelled with the encoding's name |
| `FileServer.ReadFileUtf8` | filesystem-mcp-server.py:151-157 | under the default codec a valid UTF-8 file reads as its text; the text re-encodes to the file's bytes and is returned unchanged when it holds no "\r" |
| `FileServer.ReadFileBase64` | filesystem-mcp-server.py:158-163 | a file that does not decode is returned labelled "base64"; its content is the base64 of the whole file, which decodes back to exactly the file's bytes and has length 4 * ceil(n / 3) |
| `FileServer.ReadFileInvalidUtf8` | filesystem-mcp-server.py:151-163 | under the default codec, invalid UTF-8 always takes the base64 path |
| `FileServer.ReadFileUnknownCodec` | filesystem-mcp-server.py:165-168 | an unknown codec name surfaces as a 500 carrying the `LookupError` |
| `FileServer.BinaryFileExample` | filesystem-mcp-server.py:158-163 | the bytes FF 00 10 are not UTF-8 and are returned as "/wAQ", labelled "base64" |
| `Utf8.DecodeRejectsBadLead` | filesystem-mcp-server.py:155-156 | a text whose first byte is a continuation byte, C0, C1 or F5 to FF does not decode |
| `Utf8.DecodeEncode` | filesystem-mcp-server.py:155-156 | every string survives a UTF-8 encode-then-decode round trip |
| `Utf8.EncodeDecode` | filesystem-mcp-server.py:155-156 | a byte string the strict decoder accepts is exactly the encoding of its text, so there are no overlong or alternative spellings |
| `Newlines.Translate` | filesystem-mcp-server.py:155-156 | newline translation never makes a text longer |
| `Newlines.NoCarriageReturn` | filesystem-mcp-server.py:155-156 | text read in text mode contains no "\r" |
| `Newlines.TranslateFixed` | filesystem-mcp-server.py:155-156 | newline translation leaves a text unchanged iff it holds no "\r" |
| `Newlines.TranslateIdempotent` | filesystem-mcp-server.py:155-156 | translating twice gives the same text as translating once |
| `Base64.Encode` | filesystem-mcp-server.py:162 | the base64 text of n bytes has 4 * ceil(n / 3) characters |
| `Base64.EncodeAlphabet` | filesystem-mcp-server.py:162 | base64 text is ASCII alphabet characters and "=", so `.decode("ascii")` cannot fail |
| `Base64.DecodeEncode` | filesystem-mcp-server.py:160-163 | decoding the base64 of any byte string gives back exactly those bytes |
| `Base64.EncodeDecode` | filesystem-mcp-server.py:162 | any canonical base64 text is the encoding of what it decodes to |
| `SearchServer.ReadRoot` | brave-search-mcp-server.py:71-73 | `GET /` gives the status message exactly when the gate lets the request through, and 403 otherwise |
| `SearchServer.SearchDefaults` | brave-search-mcp-server.py:52-57 | a request that gives only the query has `count = 10`, `offset = 0`, `country = "US"` and `search_lang = "en"` |
| `SearchServer.ExplicitDefaultsSame` | brave-search-mcp-server.py:52-57 | sending the four defaults explicitly gives the same request as leaving the fields out |
| `SearchServer.NullPageFails` | brave-search-mcp-server.py:124 | a `null` count or offset always makes the search fail, with a `TypeError` when the body has no `web` |
| `SearchServer.GetBraveApiKey` | brave-search-mcp-server.py:43-49 | the upstream key is returned iff it is set and non-empty; otherwise the result is 500 with the fixed configuration message |
| `SearchServer.Iterate` | brave-search-mcp-server.py:114 | `for item in v` gets through iff `v` is a list, an empty string or an empty object; a list gives its items and the other two nothing; a number, a bool or `null` is a `TypeError`; a non-empty string or object yields items that fail at `item.get`, an `AttributeError` |
| `SearchServer.ItemResult` | brave-search-mcp-server.py:115-120 | an item that is not an object is an `AttributeError`; an object becomes a result iff its title, url and description, where present, pass `str` validation and its published_date is absent, null or passes it; each field is the validated text, a missing one "" (None for published_date); otherwise it is a validation error |
| `SearchServer.StrValue` | brave-search-mcp-server.py:59-63 | a `str` field accepts exactly strings, integers and bools; a string is kept, an integer's text reads back as that integer, and a bool becomes "True" or "False" |
| `PyInt.DecimalRoundTrip` | brave-search-mcp-server.py:115-120 | the text `str(n)` of any integer `n` parses back to `n` |
| `SearchServer.ItemCoercion` | brave-search-mcp-server.py:115-120 | a number given as a title becomes its decimal text and `true` given as a url becomes "True" |
| `SearchServer.ItemRefused` | brave-search-mcp-server.py:115-120 | `null`, a list or an object given as title, url or description is a validation error |
| `SearchServer.MapResultsOk` | brave-search-mcp-server.py:113-121 | the results list exists iff every item shapes; it then has exactly one result per item, in the same order |
| `SearchServer.MapResultsFirstFailure` | brave-search-mcp-server.py:113-121 | otherwise the exception is that of the first item that does not shape |
| `SearchServer.ShapeResults` | brave-search-mcp-server.py:113-121 | the loop that appends one `SearchResult` per item computes that list, or that first exception |
| `SearchServer.NextOffset` | brave-search-mcp-server.py:124 | `next_offset` is present iff `offset + count < total_count`; it then equals `offset + count` and is strictly below `total_count` |
| `SearchServer.Search` | brave-search-mcp-server.py:76-135 | the gate's 403 and the missing-key 500 come before any upstream request is made; otherwise exactly one request is sent, carrying the request's query, count, offset, country and language and the upstream key as its token, and the reply decides the outcome as `Outcome` states |
| `SearchServer.UpstreamErrorPassesThrough` | brave-search-mcp-server.py:104-108 | an upstream status other than 200 becomes an error with that same status and the upstream text |
| `SearchServer.OtherFailuresAre500` | brave-search-mcp-server.py:132-135 | every other failure after the request is sent (no reply, a body that is not JSON, a malformed body) is a 500 |
| `SearchServer.ResponseShape` | brave-search-mcp-server.py:110-130 | a response has one result per item of `web.results`, in order; `total_count` is `web.total_results`, or 0 when absent; `next_offset` follows the pagination rule and stays below `total_count` |
| `SearchServer.MissingResultsEmpty` | brave-search-mcp-server.py:114-124 | with no `web` or no `web.results` there are no results; with no `web` at all, `total_count` is 0 |
| `SearchServer.ItemDefaults` | brave-search-mcp-server.py:115-120 | an item with none of the four keys becomes the result `("", "", "", None)` |
| `SearchServer.MalformedBody` | brave-search-mcp-server.py:110-135 | a body that is not an object, or whose `web` is not an object, is an `AttributeError`; a `web.results` that is a number, a bool or `null` is a `TypeError`; a non-empty string or object there is an `AttributeError` |
| `SearchServer.TotalCountCases` | brave-search-mcp-server.py:123-129 | once the results shape, the response exists iff `web.total_results` is absent, an integer or a bool; `total_count` is then 0, the integer, or 0 or 1 for the bool; any other value is a `TypeError` |

`Http.WithDefault`, `SearchServer.CallFor`, `SearchServer.Get` and `SearchServer.AsInt` only define what Python and pydantic do: a field default, the parameter dictionary of the upstream call, `dict.get`, and comparing with an `int`. They carry no row of their own. What they give is stated by `SearchDefaults`, `ExplicitDefaultsSame` and `NullPageFails`, by `Search`, by `ResponseShape`, `MissingResultsEmpty` and `MalformedBody`, and by `TotalCountCases`.

## Left out

- `normpath` keeps exactly two leading slashes (`//a` stays `//a`). The model collapses them to one, as for three or more.
- The `modified` field is not modelled: timestamps and float formatting are outside the model. Under pydantic version 1 the float is stored as its text, so it cannot make a listing fail.
- Symbolic links, permission errors, other OS errors and concurrent changes to the tree are not modelled. The tree is immutable, so every `os.stat` of a listed entry succeeds.
- `os.walk` is assumed to list a directory's children in the same order as `os.listdir`.
- Codecs other than UTF-8 are an uninterpreted `Decoder` parameter. This includes spellings such as "UTF-8" or "utf8", which Python resolves to the same codec.
- Reading is modelled on the whole byte string. The incremental decoding that text mode performs gives the same result.
- The text of `str(e)` for a caught exception is abstracted as the exception's kind (`Http.Cause`).
- FastAPI routing, dependency injection and response-model serialisation are not modelled.
- Request-body validation is not modelled: request fields arrive already typed.
- The unused `APIKeyHeader` objects are not modelled.
- dotenv loading, uvicorn start-up, host, port and log level are not modelled.
- The HTTP call is not modelled beyond the request sent and the reply received, including the upstream URL and the fixed `Accept` header.
- JSON numbers are integers; a float anywhere in the upstream body is not modelled.
- Names and JSON strings are Dafny strings, which hold only Unicode scalar values. Python `str` can also hold lone surrogates: `os.listdir` gives them for file names that are not UTF-8 (the `surrogateescape` handler), and `json.loads` gives them for an escape such as `"\ud800"` in the upstream body. The model cannot represent either.
- Iterating a non-empty string or object in `web.results` yields keys or characters, which fail at `item.get`. The model reports that `AttributeError` directly (`SearchServer.Iterate`), without enumerating the keys.
- pydantic version 2 is not modelled. There a `str` field accepts only strings, so `FileInfo(modified=st_mtime)` would fail and every non-empty `list_files` would be a 500.
- `FileServer.ReadFile`: its own contract states only which status codes can occur. The complete outcome is stated by the `ReadFile*` lemmas.
