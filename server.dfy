/** mgopherd.c: one request served from standard input to standard output.
    The request line is read and checked, joined onto the document root, and
    classified: a file's bytes follow, a directory is answered by its
    gophermap if it is readable, by a sorted listing otherwise. The pure
    functions below say what the whole response is; the methods do it the
    way the program does, step by step on a stream. */
module Server {
  import opened CStrings
  import opened ItemTypes
  import opened Send
  import opened Tools
  import opened Request
  import opened Classify
  import opened Gophermap
  import opened Env
  import opened Options

  /** The name of a directory's map file. */
  const GOPHERMAP: string := "gophermap"

  /** How the response ends. Done and Failed close it with the terminator
      line (Failed after an error item, with exit status EXIT_FAILURE);
      Aborted is an assert() failure, Undefined a step with undefined
      behaviour, after which nothing is known; TextFile and BinaryFile hand
      the rest of the response to write_text_file and write_binary_file. */
  datatype Outcome = Done | Failed | Aborted | Undefined | TextFile(path: string) | BinaryFile(path: string)

  /** The lines sent and how the response ends. */
  datatype Response = Response(lines: seq<Line>, outcome: Outcome)

  /** One entry or one map line: the lines it adds, then either carry on or
      stop the response there. */
  datatype Step = Continue(lines: seq<Line>) | Stop(lines: seq<Line>, outcome: Outcome)

  const FGETS_ERROR: string := "E: fgets"
  const FGETS_INFO: string := "I: I have a problem reading your request."
  const REQUEST_ERROR: string := "E: request"
  const REQUEST_INFO: string := "I: Your request seems to be invalid."
  const ITEM_INFO: string := "I: You requested an invalid item."
  const SCANDIR_ERROR: string := "E: scandir"
  const SCANDIR_INFO: string := "I: I have a problem scanning a directory."
  const FOPEN_ERROR: string := "E: fopen"
  const FOPEN_INFO: string := "I: I could not open a gophermap."
  const PARSE_INFO: string := "I: I encountered a problem parsing a gophermap."

  /** The messages are C strings: each literal is shown NUL-free piece by
      piece. */
  lemma MessagesNoNul()
    ensures NoNul(FGETS_ERROR) && NoNul(FGETS_INFO) && NoNul(REQUEST_ERROR) && NoNul(REQUEST_INFO)
    ensures NoNul(ITEM_INFO) && NoNul(SCANDIR_ERROR) && NoNul(SCANDIR_INFO)
    ensures NoNul(FOPEN_ERROR) && NoNul(FOPEN_INFO) && NoNul(PARSE_INFO)
  {
    NoNulConcat("I: I have ", "a problem ");
    NoNulConcat("reading yo", "ur request");
    NoNulConcat("I: I have a problem ", "reading your request");
    NoNulConcat("I: I have a problem reading your request", ".");
    NoNulConcat("I: Your re", "quest seem");
    NoNulConcat("s to be in", "valid.");
    NoNulConcat("I: Your request seem", "s to be invalid.");
    NoNulConcat("I: You req", "uested an ");
    NoNulConcat("invalid it", "em.");
    NoNulConcat("I: You requested an ", "invalid item.");
    NoNulConcat("scanning a", " directory");
    NoNulConcat("I: I have a problem ", "scanning a directory");
    NoNulConcat("I: I have a problem scanning a directory", ".");
    NoNulConcat("I: I could", " not open ");
    NoNulConcat("a gopherma", "p.");
    NoNulConcat("I: I could not open ", "a gophermap.");
    NoNulConcat("I: I encou", "ntered a p");
    NoNulConcat("roblem par", "sing a gop");
    NoNulConcat("I: I encountered a p", "roblem parsing a gop");
    NoNulConcat("I: I encountered a problem parsing a gop", "hermap.");
  }

  /** What the program sends before exit(EXIT_FAILURE): an error item with
      its detail, an info item, and the terminator. */
  function Failure(error: string, detail: string, info: string, infoDetail: Option<string>): seq<Line>
    requires infoDetail.None? ==> |info| < LINE_MAX - 1
  {
    [ErrorLine(error, Some(detail)), InfoLine(info, infoDetail), Terminator]
  }

  // ----- fgets(line, LINE_MAX, in) -----

  /** How many bytes one fgets into a LINE_MAX buffer takes from the input:
      through the first newline, but no more than LINE_MAX-1. */
  function ChunkLength(content: string): (n: nat)
    ensures n <= |content| && n < LINE_MAX
    ensures content != [] ==> n > 0
  {
    var e := Span(content, 0, '\n');
    var upto := if e < |content| then e + 1 else e;
    if upto < LINE_MAX - 1 then upto else LINE_MAX - 1
  }

  /** The successive reads of a loop of fgets until end of file. */
  function Chunks(content: string): (chunks: seq<string>)
    decreases |content|
  {
    if content == [] then []
    else
      var n := ChunkLength(content);
      [content[..n]] + Chunks(content[n..])
  }

  /** A read holds at most one newline, as its last byte; it stops short of
      a newline only at LINE_MAX-1 bytes or at the end of the input. */
  lemma FirstChunk(content: string)
    requires content != []
    ensures var n := ChunkLength(content);
            && 0 < n < LINE_MAX
            && (forall i | 0 <= i < n - 1 :: content[i] != '\n')
            && (n < |content| ==> content[n - 1] == '\n' || n == LINE_MAX - 1)
  {
  }

  /** The reads take the whole input, in order... */
  lemma {:induction false} ChunksCover(content: string)
    ensures Concat(Chunks(content)) == content
    decreases |content|
  {
    if content != [] {
      var n := ChunkLength(content);
      ChunksCover(content[n..]);
      assert content == content[..n] + content[n..];
    }
  }

  /** ...and each fits the buffer. */
  lemma {:induction false} ChunksFit(content: string)
    ensures forall k | 0 <= k < |Chunks(content)| :: 0 < |Chunks(content)[k]| < LINE_MAX
    decreases |content|
  {
    if content != [] {
      var n := ChunkLength(content);
      var rest := Chunks(content[n..]);
      ChunksFit(content[n..]);
      forall k | 0 <= k < |Chunks(content)| ensures 0 < |Chunks(content)[k]| < LINE_MAX {
        if k > 0 { assert Chunks(content)[k] == rest[k - 1]; }
      }
    }
  }

  /** The C string a read leaves in the buffer: up to the first NUL byte. */
  function CPrefix(chunk: string): (s: string)
    ensures s <= chunk && NoNul(s)
  {
    Token(chunk, '\0')
  }

  /** The line a read yields after tool_strip_crlf. */
  function LineOf(chunk: string): (line: string)
    ensures NoNul(line) && |line| <= |chunk|
  {
    StrippedNoNul(CPrefix(chunk));
    Stripped(CPrefix(chunk))
  }

  // ----- write_gophermap -----

  /** One line of a map file: a line holding a tab is a directive, sent as
      its item, or rejected with an error and a notice naming the map; any
      other line is sent as an info line. A line of LINE_MAX-1 characters
      without a tab leaves send_info's display unterminated. */
  function MapLine(cfg: Config, selector: string, mapPath: string, line: string): Step
    requires |selector| < LINE_MAX && |line| < LINE_MAX
  {
    if '\t' in line then
      match ParseDirective(selector, line, cfg.host, cfg.port)
      case Malformed => Continue([MalformedLine(line), InfoLine(PARSE_INFO, Some(mapPath))])
      case Parsed(it) => Continue([ItemLine(it)])
    else if |line| < LINE_MAX - 1 then Continue([InfoLine(line, None)])
    else Stop([], Undefined)
  }

  /** The map file's lines in order, then the terminator. */
  function MapLines(cfg: Config, selector: string, mapPath: string, chunks: seq<string>): Response
    requires |selector| < LINE_MAX
    requires forall k | 0 <= k < |chunks| :: |chunks[k]| < LINE_MAX
  {
    if chunks == [] then Response([Terminator], Done)
    else
      match MapLine(cfg, selector, mapPath, LineOf(chunks[0]))
      case Stop(ls, o) => Response(ls, o)
      case Continue(ls) =>
        var r := MapLines(cfg, selector, mapPath, chunks[1..]);
        Response(ls + r.lines, r.outcome)
  }

  /** write_gophermap: the map file's lines, or the error fopen reports. A
      read error ends the loop like end of file; the ferror test after the
      loop asks about standard input, whose only read succeeded, so the
      response is then terminated normally. */
  function WriteGophermapSpec(cfg: Config, selector: string, mapPath: string, fs: FileSystem): Response
    requires |selector| < LINE_MAX
  {
    match fs.open(mapPath)
    case OpenError(msg) =>
      Response(Failure(FOPEN_ERROR, msg, FOPEN_INFO, Some(mapPath)), Failed)
    case Opened(content) =>
      ChunksFit(content);
      MapLines(cfg, selector, mapPath, Chunks(content))
  }

  // ----- write_menu -----

  /** One listed entry `name` of the directory `dir` whose selector is
      `selector`: the reports of itemtype and check_rights, then the item if
      it may be served. A path that does not fit is reported by
      tool_join_path and then fails itemtype's assert; a NULL MIME type is
      dereferenced. */
  function MenuEntry(cfg: Config, dir: string, selector: string, name: FileName, fs: FileSystem): Step
    requires |selector| < LINE_MAX
  {
    match Join(dir, name)
    case None => Stop([JoinErrorLine()], Aborted)
    case Some(path) => PathEntry(cfg, selector, name, path, fs)
  }

  /** An entry once its path is known: itemtype's report, then the rest. */
  function PathEntry(cfg: Config, selector: string, name: FileName, path: string, fs: FileSystem): Step
    requires |selector| < LINE_MAX
  {
    match ItemType(path, fs.lstat(path), fs.mime(path))
    case NullMime => Stop([], Undefined)
    case Classified(t, report) => Continue(report + EntryLines(cfg, selector, name, path, t, fs))
  }

  /** An entry of type `t` at `path`: check_rights' report, then the item
      when the rights are there. */
  function EntryLines(cfg: Config, selector: string, name: FileName, path: string, t: char, fs: FileSystem): seq<Line>
    requires |selector| < LINE_MAX
  {
    JoinShortParts(selector, name);
    var c := CheckRights(path, t, fs.access);
    c.report + if c.granted then [ItemLine(Item(t, name, Join(selector, name).value, cfg.host, cfg.port))] else []
  }

  function MenuEntries(cfg: Config, dir: string, selector: string, names: seq<FileName>, fs: FileSystem): Response
    requires |selector| < LINE_MAX
  {
    if names == [] then Response([Terminator], Done)
    else
      match MenuEntry(cfg, dir, selector, names[0], fs)
      case Stop(ls, o) => Response(ls, o)
      case Continue(ls) =>
        var r := MenuEntries(cfg, dir, selector, names[1..], fs);
        Response(ls + r.lines, r.outcome)
  }

  /** write_menu: the entries scandir selects, in alphasort order, then the
      terminator; or the error scandir reports. */
  function WriteMenuSpec(cfg: Config, dir: string, selector: string, fs: FileSystem): Response
    requires |selector| < LINE_MAX
  {
    match fs.scandir(dir)
    case ScanError(msg) =>
      Response(Failure(SCANDIR_ERROR, msg, SCANDIR_INFO, Some(dir)), Failed)
    case Listing(names) => MenuEntries(cfg, dir, selector, ScanDir(names), fs)
  }

  // ----- handle_directory -----

  /** handle_directory: the gophermap if check_rights grants reading it,
      the listing otherwise. */
  function HandleDirectorySpec(cfg: Config, dir: string, selector: string, fs: FileSystem): Response
    requires |selector| < LINE_MAX
  {
    if !JoinIsSafe(dir) then Response([], Undefined)
    else MapFileResponse(cfg, dir, selector, fs)
  }

  /** handle_directory once tool_join_path is known to stay in its buffer. */
  function MapFileResponse(cfg: Config, dir: string, selector: string, fs: FileSystem): Response
    requires |selector| < LINE_MAX
  {
    match Join(dir, GOPHERMAP)
    case None => Response([JoinErrorLine()], Aborted)
    case Some(mapPath) => DirectoryResponse(cfg, dir, selector, mapPath, fs)
  }

  /** handle_directory once the map file's path is known. */
  function DirectoryResponse(cfg: Config, dir: string, selector: string, mapPath: string, fs: FileSystem): Response
    requires |selector| < LINE_MAX
  {
    var c := CheckRights(mapPath, IT_FILE, fs.access);
    var r := if c.granted then WriteGophermapSpec(cfg, selector, mapPath, fs) else WriteMenuSpec(cfg, dir, selector, fs);
    Response(c.report + r.lines, r.outcome)
  }

  // ----- main -----

  /** The request line: the first read from standard input, stripped. */
  function RequestLine(content: string): (request: string)
    requires content != []
    ensures |request| < LINE_MAX && NoNul(request)
  {
    LineOf(content[..ChunkLength(content)])
  }

  /** The item a valid request names, from its path on: itemtype's report,
      then what its type calls for. */
  function ServePath(cfg: Config, fs: FileSystem, path: string, selector: string): Response
    requires |selector| < LINE_MAX
  {
    match ItemType(path, fs.lstat(path), fs.mime(path))
    case NullMime => Response([], Undefined)
    case Classified(t, report) =>
      var r := ItemResponse(cfg, fs, path, selector, t);
      Response(report + r.lines, r.outcome)
  }

  /** main's switch on the item type: a text or binary file goes to its
      writer, a directory to handle_directory, anything else is refused. */
  function ItemResponse(cfg: Config, fs: FileSystem, path: string, selector: string, t: char): Response
    requires |selector| < LINE_MAX
  {
    if t == IT_FILE then Response([], TextFile(path))
    else if IsBinaryType(t) then Response([], BinaryFile(path))
    else if t == IT_DIR then HandleDirectorySpec(cfg, path, selector, fs)
    else Response(Failure(REQUEST_ERROR, selector, ITEM_INFO, None), Failed)
  }

  /** The whole response to what arrives on standard input. A first fgets
      that meets end of file at once leaves the request buffer as malloc
      returned it, which tool_strip_crlf then reads. */
  function ServeSpec(cfg: Config, fs: FileSystem, stdin: Stdin, fixed: bool): Response
  {
    match stdin
    case ReadError(msg) =>
      Response(Failure(FGETS_ERROR, msg, FGETS_INFO, None), Failed)
    case Received(content) =>
      if content == [] then Response([], Undefined)
      else RequestResponse(cfg, fs, RequestLine(content), fixed)
  }

  /** The response to a request line. It is checked with check_request as
      written, or, when `fixed`, with the corrected expression (see
      Request.CheckRequestFixed); the empty request is served as "/". */
  function RequestResponse(cfg: Config, fs: FileSystem, request: string, fixed: bool): Response
    requires |request| < LINE_MAX
  {
    if !RequestAccepted(fixed, request) then
      Response(Failure(REQUEST_ERROR, request, REQUEST_INFO, None), Failed)
    else SelectorResponse(cfg, fs, ServedSelector(request))
  }

  /** The selector a valid request is served under. */
  function ServedSelector(request: string): string {
    if request == [] then "/" else request
  }

  /** The response to a valid selector: its path under the document root,
      then the item there. */
  function SelectorResponse(cfg: Config, fs: FileSystem, selector: string): Response
    requires |selector| < LINE_MAX
  {
    if !JoinIsSafe(cfg.root) then Response([], Undefined)
    else
      match Join(cfg.root, selector)
      case None => Response([JoinErrorLine()], Aborted)
      case Some(path) => ServePath(cfg, fs, path, selector)
  }

  // ----- the same, step by step on the stream -----

  /** send_error, send_info and send_eom, as before every exit(EXIT_FAILURE). */
  method SendFailure(error: string, detail: string, info: string, infoDetail: Option<string>, out: Output)
    requires NoNul(error) && NoNul(detail) && NoNul(info) && (infoDetail.Some? ==> NoNul(infoDetail.value))
    requires infoDetail.None? ==> |info| < LINE_MAX - 1
    modifies out
    ensures out.sent == old(out.sent) + Failure(error, detail, info, infoDetail)
  {
    out.SendError(error, Some(detail));
    out.SendInfo(info, infoDetail);
    out.SendEom();
  }

  /** One fgets into the LINE_MAX buffer followed by tool_strip_crlf: the
      bytes read are copied and terminated, and the C string the buffer
      then holds is stripped in place. */
  method ReadChunk(buf: array<char>, chunk: string) returns (line: string)
    requires buf.Length == LINE_MAX && |chunk| < LINE_MAX
    modifies buf
    ensures line == LineOf(chunk)
    ensures |line| < LINE_MAX && buf[..|line|] == line && buf[|line|] == '\0'
  {
    var i := 0;
    while i < |chunk|
      invariant 0 <= i <= |chunk|
      invariant forall k | 0 <= k < i :: buf[k] == chunk[k]
    {
      buf[i] := chunk[i];
      i := i + 1;
    }
    buf[i] := '\0';
    ghost var prefix := CPrefix(chunk);
    ghost var n := |prefix|;
    assert buf[..n] == prefix;
    assert buf[n] == '\0';
    StrippedNoNul(prefix);
    StripCrlf(buf, n);
    ghost var m := |Stripped(prefix)|;
    line := ReadCString(buf, m);
  }

  /** One map line handled as the loop of write_gophermap does; the step
      says whether the response goes on after it. */
  method MapLineStep(cfg: Config, selector: string, mapPath: string, line: string, out: Output)
    returns (stop: Option<Outcome>)
    requires ValidConfig(cfg)
    requires NoNul(selector) && |selector| < LINE_MAX
    requires NoNul(mapPath) && NoNul(line) && |line| < LINE_MAX
    modifies out
    ensures var st := MapLine(cfg, selector, mapPath, line);
            && out.sent == old(out.sent) + st.lines
            && (stop.Some? <==> st.Stop?) && (st.Stop? ==> stop.value == st.outcome)
  {
    if '\t' in line {
      var ok, item := ParseItem(selector, line, cfg.host, cfg.port, out);
      if !ok {
        MessagesNoNul();
        out.SendInfo(PARSE_INFO, Some(mapPath));
        return None;
      }
      out.SendItem(item);
      return None;
    }
    if |line| >= LINE_MAX - 1 {
      return Some(Undefined);
    }
    out.SendInfo(line, None);
    return None;
  }

  /** write_gophermap: fopen, then fgets and one step per line until end of
      file, then the terminator. */
  method WriteGophermap(cfg: Config, selector: string, mapPath: string, fs: FileSystem, out: Output)
    returns (outcome: Outcome)
    requires ValidConfig(cfg)
    requires NoNul(selector) && |selector| < LINE_MAX && NoNul(mapPath)
    modifies out
    ensures var r := WriteGophermapSpec(cfg, selector, mapPath, fs);
            out.sent == old(out.sent) + r.lines && outcome == r.outcome
  {
    var file := fs.open(mapPath);
    if file.OpenError? {
      MessagesNoNul();
      SendFailure(FOPEN_ERROR, file.message, FOPEN_INFO, Some(mapPath), out);
      return Failed;
    }
    outcome := MapLoop(cfg, selector, mapPath, file.content, out);
  }

  /** The fgets loop of write_gophermap over the map file's bytes. */
  method MapLoop(cfg: Config, selector: string, mapPath: string, content: string, out: Output)
    returns (outcome: Outcome)
    requires ValidConfig(cfg)
    requires NoNul(selector) && |selector| < LINE_MAX && NoNul(mapPath)
    modifies out
    ensures ChunksFitting(content)
    ensures var r := MapLines(cfg, selector, mapPath, Chunks(content));
            out.sent == old(out.sent) + r.lines && outcome == r.outcome
  {
    var buf := new char[LINE_MAX];
    var rest := content;
    ChunksFit(content);
    ghost var all := MapLines(cfg, selector, mapPath, Chunks(content));
    ghost var done: seq<Line> := [];
    while rest != []
      invariant out.sent == old(out.sent) + done
      invariant ChunksFitting(rest)
      invariant var r := MapLines(cfg, selector, mapPath, Chunks(rest));
                all.lines == done + r.lines && all.outcome == r.outcome
      decreases |rest|
    {
      ghost var n := ChunkLength(rest);
      ghost var st := MapLine(cfg, selector, mapPath, LineOf(rest[..n]));
      MapLinesStep(cfg, selector, mapPath, rest);
      var stop, next := ReadAndStep(cfg, selector, mapPath, rest, buf, out);
      AppendAssoc(old(out.sent), done, st.lines);
      if stop.Some? {
        return stop.value;
      }
      ghost var r := MapLines(cfg, selector, mapPath, Chunks(next));
      AppendAssoc(done, st.lines, r.lines);
      done := done + st.lines;
      rest := next;
    }
    out.SendEom();
    return Done;
  }

  /** One turn of the loop: fgets and tool_strip_crlf into the buffer,
      then the line's step; the input then stands past what was read. */
  method ReadAndStep(cfg: Config, selector: string, mapPath: string, rest: string, buf: array<char>, out: Output)
    returns (stop: Option<Outcome>, next: string)
    requires ValidConfig(cfg) && rest != [] && buf.Length == LINE_MAX
    requires NoNul(selector) && |selector| < LINE_MAX && NoNul(mapPath)
    modifies out, buf
    ensures var n := ChunkLength(rest);
            var st := MapLine(cfg, selector, mapPath, LineOf(rest[..n]));
            && next == rest[n..]
            && out.sent == old(out.sent) + st.lines
            && (stop.Some? <==> st.Stop?) && (st.Stop? ==> stop.value == st.outcome)
  {
    var n := ChunkLength(rest);
    var line := ReadChunk(buf, rest[..n]);
    stop := MapLineStep(cfg, selector, mapPath, line, out);
    next := rest[n..];
  }

  lemma AppendAssoc<T>(a: seq<T>, b: seq<T>, c: seq<T>)
    ensures a + b + c == a + (b + c)
  {
  }

  predicate ChunksFitting(content: string) {
    forall k | 0 <= k < |Chunks(content)| :: |Chunks(content)[k]| < LINE_MAX
  }

  /** MapLines over the reads of a non-empty input: the first line's step,
      then the rest. */
  lemma MapLinesStep(cfg: Config, selector: string, mapPath: string, rest: string)
    requires |selector| < LINE_MAX && rest != []
    ensures ChunksFitting(rest) && ChunksFitting(rest[ChunkLength(rest)..])
    ensures var n := ChunkLength(rest);
            var st := MapLine(cfg, selector, mapPath, LineOf(rest[..n]));
            var r := MapLines(cfg, selector, mapPath, Chunks(rest));
            var r' := MapLines(cfg, selector, mapPath, Chunks(rest[n..]));
            if st.Stop? then r == Response(st.lines, st.outcome)
            else r.lines == st.lines + r'.lines && r.outcome == r'.outcome
  {
    ChunksFit(rest);
    ChunksFit(rest[ChunkLength(rest)..]);
    assert Chunks(rest)[0] == rest[..ChunkLength(rest)];
    assert Chunks(rest)[1..] == Chunks(rest[ChunkLength(rest)..]);
  }

  /** One entry of write_menu's loop: its path, itemtype, its selector,
      check_rights, and send_item when the rights are there. */
  method MenuEntryStep(cfg: Config, dir: string, selector: string, name: FileName, fs: FileSystem, out: Output)
    returns (stop: Option<Outcome>)
    requires ValidConfig(cfg)
    requires NoNul(dir) && JoinIsSafe(dir) && NoNul(selector) && |selector| < LINE_MAX
    modifies out
    ensures var st := MenuEntry(cfg, dir, selector, name, fs);
            && out.sent == old(out.sent) + st.lines
            && (stop.Some? <==> st.Stop?) && (st.Stop? ==> stop.value == st.outcome)
  {
    var path := JoinPath(dir, name, out);
    if path.None? {
      // itemtype asserts that its path is not NULL
      return Some(Aborted);
    }
    JoinNoNul(dir, name);
    stop := TypedEntry(cfg, selector, name, path.value, fs, out);
  }

  /** An entry whose path fits: itemtype, then the rest of the entry. */
  method TypedEntry(cfg: Config, selector: string, name: FileName, path: string, fs: FileSystem, out: Output)
    returns (stop: Option<Outcome>)
    requires ValidConfig(cfg)
    requires NoNul(path) && NoNul(selector) && |selector| < LINE_MAX
    modifies out
    ensures var st := PathEntry(cfg, selector, name, path, fs);
            && out.sent == old(out.sent) + st.lines
            && (stop.Some? <==> st.Stop?) && (st.Stop? ==> stop.value == st.outcome)
  {
    var t := SendItemType(path, fs, out);
    if t.None? {
      return Some(Undefined);
    }
    ListEntry(cfg, selector, name, path, t.value, fs, out);
    ghost var report := ItemType(path, fs.lstat(path), fs.mime(path)).report;
    AppendAssoc(old(out.sent), report, EntryLines(cfg, selector, name, path, t.value, fs));
    return None;
  }

  /** The rest of one entry once its type is known: its selector,
      check_rights, and send_item when the rights are there. */
  method ListEntry(cfg: Config, selector: string, name: FileName, path: string, t: char, fs: FileSystem, out: Output)
    requires ValidConfig(cfg)
    requires NoNul(path) && NoNul(selector) && |selector| < LINE_MAX
    modifies out
    ensures out.sent == old(out.sent) + EntryLines(cfg, selector, name, path, t, fs)
  {
    JoinShortParts(selector, name);
    var sel := JoinPath(selector, name, out);
    var granted := SendCheckRights(path, t, fs, out);
    ghost var c := CheckRights(path, t, fs.access);
    ghost var afterRights := out.sent;
    if granted {
      out.SendItem(Item(t, name, sel.value, cfg.host, cfg.port));
    }
    ghost var item := if c.granted then [ItemLine(Item(t, name, sel.value, cfg.host, cfg.port))] else [];
    assert out.sent == afterRights + item;
    AppendAssoc(old(out.sent), c.report, item);
  }

  /** MenuEntries over a non-empty listing: the first entry's step, then
      the rest. */
  lemma MenuEntriesStep(cfg: Config, dir: string, selector: string, names: seq<FileName>, fs: FileSystem)
    requires |selector| < LINE_MAX && names != []
    ensures var st := MenuEntry(cfg, dir, selector, names[0], fs);
            var r := MenuEntries(cfg, dir, selector, names, fs);
            var r' := MenuEntries(cfg, dir, selector, names[1..], fs);
            if st.Stop? then r == Response(st.lines, st.outcome)
            else r.lines == st.lines + r'.lines && r.outcome == r'.outcome
  {
  }

  /** write_menu's loop over the selected, sorted entries, then the
      terminator. */
  method MenuLoop(cfg: Config, dir: string, selector: string, names: seq<FileName>, fs: FileSystem, out: Output)
    returns (outcome: Outcome)
    requires ValidConfig(cfg)
    requires NoNul(dir) && JoinIsSafe(dir) && NoNul(selector) && |selector| < LINE_MAX
    modifies out
    ensures var r := MenuEntries(cfg, dir, selector, names, fs);
            out.sent == old(out.sent) + r.lines && outcome == r.outcome
  {
    ghost var all := MenuEntries(cfg, dir, selector, names, fs);
    ghost var done: seq<Line> := [];
    var i := 0;
    while i < |names|
      invariant 0 <= i <= |names|
      invariant out.sent == old(out.sent) + done
      invariant var r := MenuEntries(cfg, dir, selector, names[i..], fs);
                all.lines == done + r.lines && all.outcome == r.outcome
    {
      ghost var st := MenuEntry(cfg, dir, selector, names[i], fs);
      MenuEntriesStep(cfg, dir, selector, names[i..], fs);
      assert names[i..][0] == names[i] && names[i..][1..] == names[i + 1..];
      var stop := MenuEntryStep(cfg, dir, selector, names[i], fs, out);
      AppendAssoc(old(out.sent), done, st.lines);
      if stop.Some? {
        return stop.value;
      }
      AppendAssoc(done, st.lines, MenuEntries(cfg, dir, selector, names[i + 1..], fs).lines);
      done := done + st.lines;
      i := i + 1;
    }
    out.SendEom();
    return Done;
  }

  /** write_menu: scandir with entry_select and alphasort, then the loop. */
  method WriteMenu(cfg: Config, dir: string, selector: string, fs: FileSystem, out: Output)
    returns (outcome: Outcome)
    requires ValidConfig(cfg)
    requires NoNul(dir) && JoinIsSafe(dir) && NoNul(selector) && |selector| < LINE_MAX
    modifies out
    ensures var r := WriteMenuSpec(cfg, dir, selector, fs);
            out.sent == old(out.sent) + r.lines && outcome == r.outcome
  {
    var listing := fs.scandir(dir);
    if listing.ScanError? {
      MessagesNoNul();
      SendFailure(SCANDIR_ERROR, listing.message, SCANDIR_INFO, Some(dir), out);
      return Failed;
    }
    var names := ScanDir(listing.names);
    outcome := MenuLoop(cfg, dir, selector, names, fs, out);
  }

  /** handle_directory: the map file's path, check_rights on it, then the
      gophermap or the listing. */
  method HandleDirectory(cfg: Config, dir: string, selector: string, fs: FileSystem, out: Output)
    returns (outcome: Outcome)
    requires ValidConfig(cfg)
    requires NoNul(dir) && NoNul(selector) && |selector| < LINE_MAX
    modifies out
    ensures var r := HandleDirectorySpec(cfg, dir, selector, fs);
            out.sent == old(out.sent) + r.lines && outcome == r.outcome
  {
    if !JoinIsSafe(dir) {
      // tool_join_path's terminating NUL lands past its buffer
      return Undefined;
    }
    outcome := OpenDirectory(cfg, dir, selector, fs, out);
  }

  /** The map file's path, then the directory served by its rights. */
  method OpenDirectory(cfg: Config, dir: string, selector: string, fs: FileSystem, out: Output)
    returns (outcome: Outcome)
    requires ValidConfig(cfg)
    requires NoNul(dir) && JoinIsSafe(dir) && NoNul(selector) && |selector| < LINE_MAX
    modifies out
    ensures var r := MapFileResponse(cfg, dir, selector, fs);
            out.sent == old(out.sent) + r.lines && outcome == r.outcome
  {
    var mapPath := JoinPath(dir, GOPHERMAP, out);
    if mapPath.None? {
      // check_rights asserts that its path is not NULL
      outcome := Aborted;
    } else {
      JoinNoNul(dir, GOPHERMAP);
      outcome := ServeDirectory(cfg, dir, selector, mapPath.value, fs, out);
    }
  }

  /** check_rights on the map file, then write_gophermap or write_menu. */
  method ServeDirectory(cfg: Config, dir: string, selector: string, mapPath: string, fs: FileSystem, out: Output)
    returns (outcome: Outcome)
    requires ValidConfig(cfg)
    requires NoNul(dir) && JoinIsSafe(dir) && NoNul(selector) && |selector| < LINE_MAX && NoNul(mapPath)
    requires Join(dir, GOPHERMAP) == Some(mapPath)
    modifies out
    ensures var r := MapFileResponse(cfg, dir, selector, fs);
            out.sent == old(out.sent) + r.lines && outcome == r.outcome
  {
    assert MapFileResponse(cfg, dir, selector, fs) == DirectoryResponse(cfg, dir, selector, mapPath, fs);
    ghost var before := out.sent;
    var granted := SendCheckRights(mapPath, IT_FILE, fs, out);
    ghost var c := CheckRights(mapPath, IT_FILE, fs.access);
    ghost var r;
    if granted {
      outcome := WriteGophermap(cfg, selector, mapPath, fs, out);
      r := WriteGophermapSpec(cfg, selector, mapPath, fs);
    } else {
      outcome := WriteMenu(cfg, dir, selector, fs, out);
      r := WriteMenuSpec(cfg, dir, selector, fs);
    }
    AppendAssoc(before, c.report, r.lines);
  }

  // ----- main, step by step -----

  /** main: the response written to standard output, and how it ends.
      main as written is `fixed == false`; `fixed == true` is main with the
      corrected request check. */
  method Serve(cfg: Config, fs: FileSystem, stdin: Stdin, fixed: bool) returns (response: string, outcome: Outcome)
    requires ValidConfig(cfg)
    ensures var r := ServeSpec(cfg, fs, stdin, fixed);
            response == Wire(r.lines) && outcome == r.outcome
  {
    var out := new Output();
    var request := new char[LINE_MAX];
    ghost var r := ServeSpec(cfg, fs, stdin, fixed);
    outcome := Respond(cfg, fs, stdin, fixed, request, out);
    assert out.sent == [] + r.lines == r.lines;
    response := out.Text();
  }

  /** fgets of the request into its LINE_MAX buffer, tool_strip_crlf, and
      the rest of main. */
  method Respond(cfg: Config, fs: FileSystem, stdin: Stdin, fixed: bool, buf: array<char>, out: Output)
    returns (outcome: Outcome)
    requires ValidConfig(cfg) && buf.Length == LINE_MAX
    modifies out, buf
    ensures var r := ServeSpec(cfg, fs, stdin, fixed);
            out.sent == old(out.sent) + r.lines && outcome == r.outcome
  {
    if stdin.ReadError? {
      MessagesNoNul();
      SendFailure(FGETS_ERROR, stdin.message, FGETS_INFO, None, out);
      return Failed;
    }
    if stdin.content == [] {
      // the buffer malloc returned is read uninitialised
      return Undefined;
    }
    var line := ReadChunk(buf, stdin.content[..ChunkLength(stdin.content)]);
    outcome := HandleRequest(cfg, fs, line, fixed, buf, out);
  }

  /** check_request, then the empty request rewritten to "/" in its buffer,
      then the selector served. */
  method HandleRequest(cfg: Config, fs: FileSystem, line: string, fixed: bool, buf: array<char>, out: Output)
    returns (outcome: Outcome)
    requires ValidConfig(cfg) && buf.Length == LINE_MAX
    requires NoNul(line) && |line| < LINE_MAX
    modifies out, buf
    ensures var r := RequestResponse(cfg, fs, line, fixed);
            out.sent == old(out.sent) + r.lines && outcome == r.outcome
  {
    if !RequestAccepted(fixed, line) {
      MessagesNoNul();
      SendFailure(REQUEST_ERROR, line, REQUEST_INFO, None, out);
      return Failed;
    }
    var request := line;
    if line == [] {
      buf[0] := '/';
      buf[1] := '\0';
      request := ReadCString(buf, 1);
    }
    assert request == ServedSelector(line);
    outcome := ServeSelector(cfg, fs, request, out);
  }

  /** The selector served under the document root. */
  method ServeSelector(cfg: Config, fs: FileSystem, selector: string, out: Output)
    returns (outcome: Outcome)
    requires ValidConfig(cfg)
    requires NoNul(selector) && |selector| < LINE_MAX
    modifies out
    ensures var r := SelectorResponse(cfg, fs, selector);
            out.sent == old(out.sent) + r.lines && outcome == r.outcome
  {
    if !JoinIsSafe(cfg.root) {
      // tool_join_path's terminating NUL lands past its buffer
      return Undefined;
    }
    outcome := ServeJoined(cfg, fs, selector, out);
  }

  /** tool_join_path of the document root and the selector, then the item
      at that path. */
  method ServeJoined(cfg: Config, fs: FileSystem, selector: string, out: Output)
    returns (outcome: Outcome)
    requires ValidConfig(cfg) && JoinIsSafe(cfg.root)
    requires NoNul(selector) && |selector| < LINE_MAX
    modifies out
    ensures var r := SelectorResponse(cfg, fs, selector);
            out.sent == old(out.sent) + r.lines && outcome == r.outcome
  {
    var path := JoinPath(cfg.root, selector, out);
    if path.None? {
      // itemtype asserts that its path is not NULL
      outcome := Aborted;
    } else {
      JoinNoNul(cfg.root, selector);
      outcome := ServeItem(cfg, fs, path.value, selector, out);
    }
  }

  /** itemtype on the requested path, then main's switch on the type. */
  method ServeItem(cfg: Config, fs: FileSystem, path: string, selector: string, out: Output)
    returns (outcome: Outcome)
    requires ValidConfig(cfg)
    requires NoNul(path) && NoNul(selector) && |selector| < LINE_MAX
    modifies out
    ensures var r := ServePath(cfg, fs, path, selector);
            out.sent == old(out.sent) + r.lines && outcome == r.outcome
  {
    var t := SendItemType(path, fs, out);
    if t.None? {
      return Undefined;
    }
    ghost var before := out.sent;
    outcome := ServeType(cfg, fs, path, selector, t.value, out);
    ghost var report := ItemType(path, fs.lstat(path), fs.mime(path)).report;
    AppendAssoc(old(out.sent), report, ItemResponse(cfg, fs, path, selector, t.value).lines);
  }

  /** The switch itself: write_text_file, write_binary_file,
      handle_directory, or the refusal. */
  method ServeType(cfg: Config, fs: FileSystem, path: string, selector: string, t: char, out: Output)
    returns (outcome: Outcome)
    requires ValidConfig(cfg)
    requires NoNul(path) && NoNul(selector) && |selector| < LINE_MAX
    modifies out
    ensures var r := ItemResponse(cfg, fs, path, selector, t);
            out.sent == old(out.sent) + r.lines && outcome == r.outcome
  {
    if t == IT_FILE {
      return TextFile(path);
    } else if IsBinaryType(t) {
      return BinaryFile(path);
    } else if t == IT_DIR {
      outcome := HandleDirectory(cfg, path, selector, fs, out);
    } else {
      MessagesNoNul();
      SendFailure(REQUEST_ERROR, selector, ITEM_INFO, None, out);
      return Failed;
    }
  }
}
