/**
 * The filesystem gateway's endpoints: `GET /`, `POST /list` and `POST /read`.
 * Each first passes the access gate; `list_files` and `read_file` then run
 * `safe_path` and map every Python exception other than an `HTTPException`
 * to status 500.
 */
module FileServer {
  import opened Wrappers
  import opened Http
  import opened Octets
  import opened PosixPath
  import opened FsTree
  import opened Lister
  import opened Walking
  import AccessGate
  import PathGuard
  import Utf8
  import Newlines
  import Base64

  /** The settings read at startup, and the process's working directory for `os.path.abspath`. */
  datatype Config = Config(apiKey: Option<string>, basePath: Option<string>, cwd: string)

  /** `FileListRequest`; `recursive` is None when the client sent `null`, and `Some(false)` when it left it out. */
  datatype FileListRequest = FileListRequest(path: string, recursive: Option<bool>)

  datatype FileListResponse = FileListResponse(files: seq<FileInfo>)

  /** `FileRequest`; `encoding` defaults to None. */
  datatype FileRequest = FileRequest(path: string, encoding: Option<string>)

  datatype FileContentResponse = FileContentResponse(content: string, encoding: string)

  /** What opening a file in text mode under a codec and reading it gives. */
  datatype Decoded =
    | Text(text: string)      // the decoded text, before newline translation
    | BadBytes                // UnicodeDecodeError
    | UnknownCodec            // LookupError: no codec of that name

  /** The codecs other than UTF-8, uninterpreted. */
  type Decoder = (string, seq<Byte>) -> Decoded

  /** `GET /`. */
  function ReadRoot(cfg: Config, header: Option<string>): (r: Result<string, HttpException>)
    ensures r.Success? <==> AccessGate.Unset(cfg.apiKey) || header == cfg.apiKey
    ensures r.Success? ==> r.value == "Filesystem MCP server is running"
    ensures r.Failure? ==> r.error == HttpException(403, Message("Invalid API key"))
  {
    match AccessGate.GetApiKey(cfg.apiKey, header)
    case Failure(e) => Failure(e)
    case Success(_) => Success("Filesystem MCP server is running")
  }

  // ---------------------------------------------------------------------------
  // POST /list

  /**
   * `list_files`. The gate's and `safe_path`'s 403s and the 404 for a
   * missing path come before any enumeration; a recursive listing is the
   * walk-order listing of every descendant (empty for a regular file, where
   * `os.walk` yields nothing); a shallow listing of a directory has one
   * record per child; a shallow listing of a regular file is a 500.
   */
  method ListFiles(cfg: Config, fs: Node, header: Option<string>, req: FileListRequest)
    returns (r: Result<FileListResponse, HttpException>)
    requires WellFormed(fs)
    ensures var gate := AccessGate.GetApiKey(cfg.apiKey, header);
            var safe := PathGuard.SafePath(cfg.basePath, cfg.cwd, req.path);
            if gate.Failure? then r == Failure(gate.error)
            else if safe.Failure? then r == Failure(safe.error)
            else if Lookup(fs, safe.value).None? then r == Failure(HttpException(404, Message("Path not found")))
            else if req.recursive == Some(true) then
              r == Success(FileListResponse(Listing(safe.value, Lookup(fs, safe.value).value)))
            else if Lookup(fs, safe.value).value.File? then r == Failure(Internal(NotADirectoryError(safe.value)))
            else r == Success(FileListResponse(ShallowListing(safe.value, Lookup(fs, safe.value).value.entries)))
  {
    var gate := AccessGate.GetApiKey(cfg.apiKey, header);
    if gate.Failure? {
      return Failure(gate.error);
    }
    var safe := PathGuard.SafePath(cfg.basePath, cfg.cwd, req.path);
    if safe.Failure? {
      return Failure(safe.error);
    }
    var path := safe.value;
    if Lookup(fs, path).None? {
      return Failure(HttpException(404, Message("Path not found")));
    }
    if req.recursive == Some(true) {
      var files := ListRecursive(fs, path);
      return Success(FileListResponse(files));
    }
    var shallow := ListShallow(fs, path);
    if shallow.Failure? {
      return Failure(shallow.error);
    }
    assert shallow.value == ShallowListing(path, Lookup(fs, path).value.entries);
    return Success(FileListResponse(shallow.value));
  }

  // ---------------------------------------------------------------------------
  // POST /read

  /** `request.encoding or "utf-8"`. */
  function EncodingOf(req: FileRequest): (e: string)
    ensures e == "utf-8" <==> req.encoding in {None, Some(""), Some("utf-8")}
    ensures e != "utf-8" ==> req.encoding == Some(e)
  {
    if req.encoding.None? || req.encoding.value == "" then "utf-8" else req.encoding.value
  }

  /** Reading the whole file in text mode under `encoding`, before newline translation. */
  function DecodeAs(decoder: Decoder, encoding: string, data: seq<Byte>): (r: Decoded)
    ensures encoding == "utf-8" ==> (r.Text? <==> Utf8.Decode(data).Some?) && !r.UnknownCodec?
    ensures encoding == "utf-8" && r.Text? ==> Utf8.Encode(r.text) == data
  {
    if encoding == "utf-8" then
      match Utf8.Decode(data)
      case Some(t) =>
        Utf8.EncodeDecode(data);
        Text(t)
      case None => BadBytes
    else decoder(encoding, data)
  }

  /**
   * `read_file`: 403 from the gate or `safe_path`, 404 for a missing path,
   * 400 for a directory; otherwise the text-mode content labelled with the
   * encoding, or, when the bytes do not decode, the base64 of the whole file
   * labelled "base64". An unknown codec is a 500.
   */
  function ReadFile(cfg: Config, fs: Node, header: Option<string>, req: FileRequest, decoder: Decoder)
    : (r: Result<FileContentResponse, HttpException>)
    ensures r.Failure? ==> r.error.statusCode in {400, 403, 404, 500}
  {
    match AccessGate.GetApiKey(cfg.apiKey, header)
    case Failure(e) => Failure(e)
    case Success(_) =>
      match PathGuard.SafePath(cfg.basePath, cfg.cwd, req.path)
      case Failure(e) => Failure(e)
      case Success(path) =>
        match Lookup(fs, path)
        case None => Failure(HttpException(404, Message("File not found")))
        case Some(Dir(_)) => Failure(HttpException(400, Message("Cannot read directory")))
        case Some(File(data)) =>
          var encoding := EncodingOf(req);
          match DecodeAs(decoder, encoding, data)
          case Text(t) => Success(FileContentResponse(Newlines.Translate(t), encoding))
          case BadBytes => Success(FileContentResponse(Base64.Encode(data), "base64"))
          case UnknownCodec => Failure(Internal(LookupError(encoding)))
  }

  /** The path `read_file` works on once the gate and `safe_path` have let the request through. */
  predicate Resolved(cfg: Config, header: Option<string>, req: FileRequest, path: string)
  {
    AccessGate.GetApiKey(cfg.apiKey, header).Success? &&
    PathGuard.SafePath(cfg.basePath, cfg.cwd, req.path) == Success(path)
  }

  /** The checks before any reading, in their order: gate, containment, existence, kind. */
  lemma ReadFileChecks(cfg: Config, fs: Node, header: Option<string>, req: FileRequest, decoder: Decoder)
    ensures var gate := AccessGate.GetApiKey(cfg.apiKey, header);
            var safe := PathGuard.SafePath(cfg.basePath, cfg.cwd, req.path);
            && (gate.Failure? ==> ReadFile(cfg, fs, header, req, decoder) == Failure(gate.error))
            && (gate.Success? && safe.Failure? ==> ReadFile(cfg, fs, header, req, decoder) == Failure(safe.error))
            && (gate.Success? && safe.Success? && Lookup(fs, safe.value).None? ==>
                  ReadFile(cfg, fs, header, req, decoder) == Failure(HttpException(404, Message("File not found"))))
            && (gate.Success? && safe.Success? && Lookup(fs, safe.value).Some? && Lookup(fs, safe.value).value.Dir? ==>
                  ReadFile(cfg, fs, header, req, decoder) == Failure(HttpException(400, Message("Cannot read directory"))))
  {
  }

  /**
   * A file that decodes under the requested encoding is returned as its text
   * with universal newlines applied, so without any "\r", under that
   * encoding's name.
   */
  lemma ReadFileText(cfg: Config, fs: Node, header: Option<string>, req: FileRequest, decoder: Decoder,
                     path: string, data: seq<Byte>)
    requires Resolved(cfg, header, req, path) && Lookup(fs, path) == Some(File(data))
    requires DecodeAs(decoder, EncodingOf(req), data).Text?
    ensures var t := DecodeAs(decoder, EncodingOf(req), data).text;
            ReadFile(cfg, fs, header, req, decoder) == Success(FileContentResponse(Newlines.Translate(t), EncodingOf(req)))
    ensures '\r' !in ReadFile(cfg, fs, header, req, decoder).value.content
  {
    Newlines.NoCarriageReturn(DecodeAs(decoder, EncodingOf(req), data).text);
  }

  /**
   * Under the default codec, a file of valid UTF-8 reads as its text, and
   * nothing of it is lost: the text re-encodes to the file's bytes, and when
   * it holds no "\r" it is returned as it is.
   */
  lemma ReadFileUtf8(cfg: Config, fs: Node, header: Option<string>, req: FileRequest, decoder: Decoder,
                     path: string, data: seq<Byte>)
    requires Resolved(cfg, header, req, path) && Lookup(fs, path) == Some(File(data))
    requires EncodingOf(req) == "utf-8" && Utf8.Decode(data).Some?
    ensures var t := Utf8.Decode(data).value;
            && Utf8.Encode(t) == data
            && ReadFile(cfg, fs, header, req, decoder) == Success(FileContentResponse(Newlines.Translate(t), "utf-8"))
            && ('\r' !in t ==> ReadFile(cfg, fs, header, req, decoder).value.content == t)
  {
    Utf8.EncodeDecode(data);
    Newlines.TranslateFixed(Utf8.Decode(data).value);
  }

  /**
   * A file that does not decode is returned as the base64 text of all of its
   * bytes, labelled "base64": decoding that text gives back exactly the file.
   */
  lemma ReadFileBase64(cfg: Config, fs: Node, header: Option<string>, req: FileRequest, decoder: Decoder,
                       path: string, data: seq<Byte>)
    requires Resolved(cfg, header, req, path) && Lookup(fs, path) == Some(File(data))
    requires DecodeAs(decoder, EncodingOf(req), data).BadBytes?
    ensures ReadFile(cfg, fs, header, req, decoder).Success?
    ensures ReadFile(cfg, fs, header, req, decoder).value.encoding == "base64"
    ensures Base64.Decode(ReadFile(cfg, fs, header, req, decoder).value.content) == Some(data)
    ensures |ReadFile(cfg, fs, header, req, decoder).value.content| == 4 * ((|data| + 2) / 3)
  {
    Base64.DecodeEncode(data);
  }

  /** With the default codec, a file that is not valid UTF-8 always takes the base64 path. */
  lemma ReadFileInvalidUtf8(cfg: Config, fs: Node, header: Option<string>, req: FileRequest, decoder: Decoder,
                            path: string, data: seq<Byte>)
    requires Resolved(cfg, header, req, path) && Lookup(fs, path) == Some(File(data))
    requires EncodingOf(req) == "utf-8" && Utf8.Decode(data).None?
    ensures ReadFile(cfg, fs, header, req, decoder) == Success(FileContentResponse(Base64.Encode(data), "base64"))
    ensures Base64.Decode(ReadFile(cfg, fs, header, req, decoder).value.content) == Some(data)
  {
    Base64.DecodeEncode(data);
  }

  /** An unknown codec name surfaces as a 500 carrying the `LookupError`. */
  lemma ReadFileUnknownCodec(cfg: Config, fs: Node, header: Option<string>, req: FileRequest, decoder: Decoder,
                             path: string, data: seq<Byte>)
    requires Resolved(cfg, header, req, path) && Lookup(fs, path) == Some(File(data))
    requires DecodeAs(decoder, EncodingOf(req), data).UnknownCodec?
    ensures EncodingOf(req) != "utf-8"
    ensures ReadFile(cfg, fs, header, req, decoder) == Failure(Internal(LookupError(EncodingOf(req))))
  {
  }

  /** The bytes FF 00 10 are not UTF-8: FF is never a lead byte. */
  lemma NotUtf8Example()
    ensures Utf8.Decode([0xFF, 0x00, 0x10]).None?
  {
    assert Utf8.DecodeFirst([0xFF, 0x00, 0x10]).None?;
  }

  /** The base64 text of FF 00 10 is "/wAQ". */
  lemma Base64Example()
    ensures Base64.Encode([0xFF, 0x00, 0x10]) == "/wAQ"
  {
    var data: seq<Byte> := [0xFF, 0x00, 0x10];
    assert data[3..] == [];
    assert Base64.Encode(data) == Base64.Encode3(0xFF, 0x00, 0x10);
    assert Base64.Sym(63) == '/' && Base64.Sym(48) == 'w' && Base64.Sym(0) == 'A' && Base64.Sym(16) == 'Q';
  }

  /** The bytes FF 00 10 are not UTF-8, and come back as the base64 text "/wAQ". */
  lemma BinaryFileExample(cfg: Config, fs: Node, header: Option<string>, req: FileRequest, decoder: Decoder, path: string)
    requires Resolved(cfg, header, req, path) && Lookup(fs, path) == Some(File([0xFF, 0x00, 0x10]))
    requires EncodingOf(req) == "utf-8"
    ensures ReadFile(cfg, fs, header, req, decoder) == Success(FileContentResponse("/wAQ", "base64"))
  {
    NotUtf8Example();
    Base64Example();
    assert DecodeAs(decoder, "utf-8", [0xFF, 0x00, 0x10]).BadBytes?;
  }
}
