/** What every response of the server has in common: how it ends, what a
    listing holds, and which paths a request can reach. */
module Properties {
  import opened CStrings
  import opened ItemTypes
  import opened Send
  import opened Tools
  import opened Request
  import opened Classify
  import opened Gophermap
  import opened Env
  import opened Options
  import opened Server

  // ----- the terminator -----

  /** Closed by exactly one terminator, as the last line. */
  predicate Terminated(ls: seq<Line>) {
    |ls| > 0 && ls[|ls| - 1] == Terminator && Terminator !in ls[..|ls| - 1]
  }

  /** A response that ends normally or with exit(EXIT_FAILURE) is closed by
      send_eom once, at its end; one cut short by an assert, by undefined
      behaviour, or handed to a file writer holds no terminator yet. */
  predicate WellEnded(r: Response) {
    if r.outcome == Done || r.outcome == Failed then Terminated(r.lines) else Terminator !in r.lines
  }

  /** An outcome that does not hand a file over to a file writer: what a
      listing or a gophermap ends with. */
  predicate KeepsStream(o: Outcome) {
    !o.TextFile? && !o.BinaryFile?
  }

  /** Lines without a terminator in front of a well-ended response keep it
      well ended. */
  lemma WellEndedAfter(a: seq<Line>, r: Response)
    requires Terminator !in a && WellEnded(r)
    ensures WellEnded(Response(a + r.lines, r.outcome))
  {
    var ls := a + r.lines;
    if r.outcome == Done || r.outcome == Failed {
      assert ls[..|ls| - 1] == a + r.lines[..|r.lines| - 1];
    }
  }

  lemma FailureWellEnded(error: string, detail: string, info: string, infoDetail: Option<string>)
    requires infoDetail.None? ==> |info| < LINE_MAX - 1
    ensures WellEnded(Response(Failure(error, detail, info, infoDetail), Failed))
  {
    var ls := Failure(error, detail, info, infoDetail);
    assert ls[..|ls| - 1] == [ErrorLine(error, Some(detail)), InfoLine(info, infoDetail)];
  }

  /** The one-line response [Terminator] of an empty listing or map. */
  lemma EomWellEnded()
    ensures WellEnded(Response([Terminator], Done))
  {
    assert [Terminator][..0] == [];
  }

  lemma {:induction false} MenuEntriesWellEnded(cfg: Config, dir: string, selector: string, names: seq<FileName>, fs: FileSystem)
    requires |selector| < LINE_MAX
    ensures WellEnded(MenuEntries(cfg, dir, selector, names, fs))
    ensures KeepsStream(MenuEntries(cfg, dir, selector, names, fs).outcome)
    decreases |names|
  {
    if names == [] {
      EomWellEnded();
    } else {
      var st := MenuEntry(cfg, dir, selector, names[0], fs);
      if st.Continue? {
        MenuEntriesWellEnded(cfg, dir, selector, names[1..], fs);
        WellEndedAfter(st.lines, MenuEntries(cfg, dir, selector, names[1..], fs));
      }
    }
  }

  lemma {:induction false} MapLinesWellEnded(cfg: Config, selector: string, mapPath: string, chunks: seq<string>)
    requires |selector| < LINE_MAX
    requires forall k | 0 <= k < |chunks| :: |chunks[k]| < LINE_MAX
    ensures WellEnded(MapLines(cfg, selector, mapPath, chunks))
    ensures KeepsStream(MapLines(cfg, selector, mapPath, chunks).outcome)
    decreases |chunks|
  {
    if chunks == [] {
      EomWellEnded();
    } else {
      var st := MapLine(cfg, selector, mapPath, LineOf(chunks[0]));
      if st.Continue? {
        MapLinesWellEnded(cfg, selector, mapPath, chunks[1..]);
        WellEndedAfter(st.lines, MapLines(cfg, selector, mapPath, chunks[1..]));
      }
    }
  }

  lemma GophermapWellEnded(cfg: Config, selector: string, mapPath: string, fs: FileSystem)
    requires |selector| < LINE_MAX
    ensures WellEnded(WriteGophermapSpec(cfg, selector, mapPath, fs))
    ensures KeepsStream(WriteGophermapSpec(cfg, selector, mapPath, fs).outcome)
  {
    match fs.open(mapPath)
    case OpenError(msg) =>
      FailureWellEnded(FOPEN_ERROR, msg, FOPEN_INFO, Some(mapPath));
    case Opened(content) =>
      ChunksFit(content);
      MapLinesWellEnded(cfg, selector, mapPath, Chunks(content));
  }

  lemma MenuWellEnded(cfg: Config, dir: string, selector: string, fs: FileSystem)
    requires |selector| < LINE_MAX
    ensures WellEnded(WriteMenuSpec(cfg, dir, selector, fs))
    ensures KeepsStream(WriteMenuSpec(cfg, dir, selector, fs).outcome)
  {
    match fs.scandir(dir)
    case ScanError(msg) =>
      FailureWellEnded(SCANDIR_ERROR, msg, SCANDIR_INFO, Some(dir));
    case Listing(names) =>
      MenuEntriesWellEnded(cfg, dir, selector, ScanDir(names), fs);
  }

  lemma DirectoryWellEnded(cfg: Config, dir: string, selector: string, fs: FileSystem)
    requires |selector| < LINE_MAX
    ensures WellEnded(HandleDirectorySpec(cfg, dir, selector, fs))
    ensures KeepsStream(HandleDirectorySpec(cfg, dir, selector, fs).outcome)
  {
    if JoinIsSafe(dir) && Join(dir, GOPHERMAP).Some? {
      var mapPath := Join(dir, GOPHERMAP).value;
      var c := CheckRights(mapPath, IT_FILE, fs.access);
      if c.granted {
        GophermapWellEnded(cfg, selector, mapPath, fs);
        WellEndedAfter(c.report, WriteGophermapSpec(cfg, selector, mapPath, fs));
      } else {
        MenuWellEnded(cfg, dir, selector, fs);
        WellEndedAfter(c.report, WriteMenuSpec(cfg, dir, selector, fs));
      }
    }
  }

  lemma PathWellEnded(cfg: Config, fs: FileSystem, path: string, selector: string)
    requires |selector| < LINE_MAX
    ensures WellEnded(ServePath(cfg, fs, path, selector))
  {
    var c := ItemType(path, fs.lstat(path), fs.mime(path));
    if c.Classified? {
      var t := c.itemType;
      if t == IT_DIR {
        DirectoryWellEnded(cfg, path, selector, fs);
      } else if !IsFileType(t) {
        FailureWellEnded(REQUEST_ERROR, selector, ITEM_INFO, None);
      }
      WellEndedAfter(c.report, ItemResponse(cfg, fs, path, selector, t));
    }
  }

  /** Every response of the server is well ended. */
  lemma ServeWellEnded(cfg: Config, fs: FileSystem, stdin: Stdin, fixed: bool)
    ensures WellEnded(ServeSpec(cfg, fs, stdin, fixed))
  {
    match stdin
    case ReadError(msg) =>
      FailureWellEnded(FGETS_ERROR, msg, FGETS_INFO, None);
    case Received(content) =>
      if content != [] {
        var request := RequestLine(content);
        if !RequestAccepted(fixed, request) {
          FailureWellEnded(REQUEST_ERROR, request, REQUEST_INFO, None);
        } else {
          var selector := ServedSelector(request);
          if JoinIsSafe(cfg.root) && Join(cfg.root, selector).Some? {
            PathWellEnded(cfg, fs, Join(cfg.root, selector).value, selector);
          }
        }
      }
  }

  // ----- listings -----

  /** A line write_menu can send for a directory holding `names` whose
      selector is `selector`: an item for one of the names, of a file or
      directory type, whose selector is the name joined onto the
      directory's and which points back at this server; a notice; or the
      terminator. */
  predicate ListingLine(cfg: Config, selector: string, names: seq<FileName>, l: Line) {
    match l
    case ItemLine(it) =>
      && it.display in names
      && (IsFileType(it.itemType) || it.itemType == IT_DIR)
      && Join(selector, it.display) == Some(it.selector)
      && it.host == cfg.host && it.port == cfg.port
    case FakeLine(_, _) => IsFake(l)
    case Terminator => true
  }

  /** check_rights' report and the item it lets through: the only item
      shows `name`. */
  lemma EntryLinesListing(cfg: Config, selector: string, name: FileName, path: string, t: char, fs: FileSystem)
    requires |selector| < LINE_MAX
    ensures var ls := EntryLines(cfg, selector, name, path, t, fs);
            && (forall l | l in ls :: ListingLine(cfg, selector, [name], l))
            && (Displays(ls) == [] || Displays(ls) == [name])
  {
    JoinShortParts(selector, name);
    var c := CheckRights(path, t, fs.access);
    var it := [ItemLine(Item(t, name, Join(selector, name).value, cfg.host, cfg.port))];
    var tail: seq<Line> := if c.granted then it else [];
    assert Displays(it) == [name] by { assert it[1..] == []; }
    NoticesThen(c.report, tail, cfg, selector, name);
  }

  /** Notices followed by lines of the listing of `name`. */
  lemma NoticesThen(report: seq<Line>, e: seq<Line>, cfg: Config, selector: string, name: FileName)
    requires forall l | l in report :: IsFake(l)
    requires forall l | l in e :: ListingLine(cfg, selector, [name], l)
    requires Displays(e) == [] || Displays(e) == [name]
    ensures forall l | l in report + e :: ListingLine(cfg, selector, [name], l)
    ensures Displays(report + e) == [] || Displays(report + e) == [name]
  {
    DisplaysNoItem(report);
    DisplaysAppend(report, e);
  }

  /** An entry whose path is known: itemtype's report holds no item. */
  lemma PathEntryListing(cfg: Config, selector: string, name: FileName, path: string, fs: FileSystem)
    requires |selector| < LINE_MAX
    ensures var ls := PathEntry(cfg, selector, name, path, fs).lines;
            && (forall l | l in ls :: ListingLine(cfg, selector, [name], l))
            && (Displays(ls) == [] || Displays(ls) == [name])
  {
    var c := ItemType(path, fs.lstat(path), fs.mime(path));
    if c.Classified? {
      EntryLinesListing(cfg, selector, name, path, c.itemType, fs);
      NoticesThen(c.report, EntryLines(cfg, selector, name, path, c.itemType, fs), cfg, selector, name);
    }
  }

  /** The lines of the first entry of a listing. */
  lemma EntryListing(cfg: Config, dir: string, selector: string, names: seq<FileName>, fs: FileSystem)
    requires |selector| < LINE_MAX && names != []
    ensures forall l | l in MenuEntry(cfg, dir, selector, names[0], fs).lines :: ListingLine(cfg, selector, names, l)
    ensures Displays(MenuEntry(cfg, dir, selector, names[0], fs).lines) == []
            || Displays(MenuEntry(cfg, dir, selector, names[0], fs).lines) == [names[0]]
  {
    if Join(dir, names[0]).Some? {
      var ls := PathEntry(cfg, selector, names[0], Join(dir, names[0]).value, fs).lines;
      PathEntryListing(cfg, selector, names[0], Join(dir, names[0]).value, fs);
      forall l | l in ls ensures ListingLine(cfg, selector, names, l) {
        assert ListingLine(cfg, selector, [names[0]], l);
      }
    } else {
      assert Displays([JoinErrorLine()]) == [];
    }
  }

  /** The item write_menu builds for the entry `name` of type `t`. */
  function EntryItem(cfg: Config, selector: string, name: FileName, t: char): Item
    requires |selector| < LINE_MAX
  {
    JoinShortParts(selector, name);
    Item(t, name, Join(selector, name).value, cfg.host, cfg.port)
  }

  lemma EntryLinesItem(cfg: Config, selector: string, name: FileName, path: string, t: char, fs: FileSystem)
    requires |selector| < LINE_MAX
    ensures var ls := EntryLines(cfg, selector, name, path, t, fs);
            && (ItemLine(EntryItem(cfg, selector, name, t)) in ls <==> CheckRights(path, t, fs.access).granted)
            && (forall l | l in ls && l.ItemLine? :: l == ItemLine(EntryItem(cfg, selector, name, t)))
  {
    var c := CheckRights(path, t, fs.access);
    assert forall l | l in c.report :: l.FakeLine?;
  }

  /** An entry that itemtype classifies is sent as its one item exactly
      when check_rights grants its type; it adds no other item, and the
      listing carries on after it. */
  lemma EntryItemIffGranted(cfg: Config, dir: string, selector: string, name: FileName, fs: FileSystem)
    requires |selector| < LINE_MAX && Join(dir, name).Some?
    requires var path := Join(dir, name).value; ItemType(path, fs.lstat(path), fs.mime(path)).Classified?
    ensures var path := Join(dir, name).value;
            var t := ItemType(path, fs.lstat(path), fs.mime(path)).itemType;
            var st := MenuEntry(cfg, dir, selector, name, fs);
            && st.Continue?
            && (ItemLine(EntryItem(cfg, selector, name, t)) in st.lines <==> CheckRights(path, t, fs.access).granted)
            && (forall l | l in st.lines && l.ItemLine? :: l == ItemLine(EntryItem(cfg, selector, name, t)))
  {
    var path := Join(dir, name).value;
    var c := ItemType(path, fs.lstat(path), fs.mime(path));
    EntryLinesItem(cfg, selector, name, path, c.itemType, fs);
    assert forall l | l in c.report :: l.FakeLine?;
  }

  lemma {:induction false} MenuEntriesListing(cfg: Config, dir: string, selector: string, names: seq<FileName>, fs: FileSystem)
    requires |selector| < LINE_MAX
    ensures forall l | l in MenuEntries(cfg, dir, selector, names, fs).lines :: ListingLine(cfg, selector, names, l)
    decreases |names|
  {
    if names != [] {
      EntryListing(cfg, dir, selector, names, fs);
      var st := MenuEntry(cfg, dir, selector, names[0], fs);
      if st.Continue? {
        var r := MenuEntries(cfg, dir, selector, names[1..], fs);
        MenuEntriesListing(cfg, dir, selector, names[1..], fs);
        forall l | l in r.lines ensures ListingLine(cfg, selector, names, l) {
          if l.ItemLine? {
            assert l.item.display in names[1..];
          }
        }
      }
    }
  }

  /** The names the items among `ls` show, in order. */
  function Displays(ls: seq<Line>): seq<string> {
    if ls == [] then [] else (if ls[0].ItemLine? then [ls[0].item.display] else []) + Displays(ls[1..])
  }

  lemma {:induction false} DisplaysAppend(a: seq<Line>, b: seq<Line>)
    ensures Displays(a + b) == Displays(a) + Displays(b)
  {
    if a != [] {
      assert (a + b)[1..] == a[1..] + b;
      DisplaysAppend(a[1..], b);
    } else {
      assert a + b == b;
    }
  }

  lemma DisplaysNoItem(ls: seq<Line>)
    requires forall l | l in ls :: !l.ItemLine?
    ensures Displays(ls) == []
  {
    if ls != [] {
      assert ls[0] in ls;
      DisplaysNoItem(ls[1..]);
    }
  }

  lemma {:induction false} DisplaysWithin(ls: seq<Line>, names: seq<string>)
    requires forall l | l in ls :: l.ItemLine? ==> l.item.display in names
    ensures forall x | x in Displays(ls) :: x in names
  {
    if ls != [] {
      assert ls[0] in ls;
      DisplaysWithin(ls[1..], names);
    }
  }

  /** The items of a listing of sorted names come in that order. */
  lemma {:induction false} MenuEntriesSorted(cfg: Config, dir: string, selector: string, names: seq<FileName>, fs: FileSystem)
    requires |selector| < LINE_MAX && Sorted(names)
    ensures Sorted(Displays(MenuEntries(cfg, dir, selector, names, fs).lines))
    decreases |names|
  {
    var r := MenuEntries(cfg, dir, selector, names, fs);
    if names == [] {
      assert Displays(r.lines) == [];
    } else {
      EntryListing(cfg, dir, selector, names, fs);
      var st := MenuEntry(cfg, dir, selector, names[0], fs);
      if st.Stop? {
        assert |Displays(r.lines)| <= 1;
      } else {
        var rest := MenuEntries(cfg, dir, selector, names[1..], fs);
        SortedTail(names);
        MenuEntriesSorted(cfg, dir, selector, names[1..], fs);
        MenuEntriesListing(cfg, dir, selector, names[1..], fs);
        DisplaysAppend(st.lines, rest.lines);
        var tail := Displays(rest.lines);
        if Displays(st.lines) == [names[0]] {
          DisplaysWithin(rest.lines, names[1..]);
          forall k | 0 <= k < |tail| ensures LexLe(names[0], tail[k]) {
            assert tail[k] in names[1..];
            SortedHeadLeast(names, tail[k]);
          }
          SortedCons(names[0], tail);
        } else {
          assert Displays(r.lines) == tail;
        }
      }
    }
  }

  /** write_menu's listing: its items are those of the directory's
      entries not starting with '.', each of a file or directory type, with
      the selector of the entry, pointing back at this server, and in
      strcmp order; every other line is a notice or the terminator. */
  lemma MenuListsSelected(cfg: Config, dir: string, selector: string, fs: FileSystem)
    requires |selector| < LINE_MAX && fs.scandir(dir).Listing?
    ensures var names := fs.scandir(dir).names;
            var ls := WriteMenuSpec(cfg, dir, selector, fs).lines;
            && (forall l | l in ls :: ListingLine(cfg, selector, names, l) && (l.ItemLine? ==> EntrySelect(l.item.display)))
            && Sorted(Displays(ls))
  {
    var names := fs.scandir(dir).names;
    var listed := ScanDir(names);
    ScanDirCorrect(names);
    MenuEntriesListing(cfg, dir, selector, listed, fs);
    MenuEntriesSorted(cfg, dir, selector, listed, fs);
    var ls := WriteMenuSpec(cfg, dir, selector, fs).lines;
    forall l | l in ls ensures ListingLine(cfg, selector, names, l) && (l.ItemLine? ==> EntrySelect(l.item.display)) {
      assert ListingLine(cfg, selector, listed, l);
    }
  }

  /** Whether write_menu lists the entry `name` of `dir`: its path fits,
      itemtype classifies it and check_rights grants its type. */
  predicate EntryGranted(dir: string, name: FileName, fs: FileSystem) {
    match Join(dir, name)
    case None => false
    case Some(path) =>
      match ItemType(path, fs.lstat(path), fs.mime(path))
      case NullMime => false
      case Classified(t, _) => CheckRights(path, t, fs.access).granted
  }

  /** The names among `names` that write_menu lists, in their order. */
  function GrantedNames(dir: string, names: seq<FileName>, fs: FileSystem): seq<FileName> {
    if names == [] then []
    else (if EntryGranted(dir, names[0], fs) then [names[0]] else []) + GrantedNames(dir, names[1..], fs)
  }

  lemma {:induction false} GrantedNamesIn(dir: string, names: seq<FileName>, fs: FileSystem)
    ensures forall x :: x in GrantedNames(dir, names, fs) <==> x in names && EntryGranted(dir, x, fs)
  {
    if names != [] {
      GrantedNamesIn(dir, names[1..], fs);
      assert names == [names[0]] + names[1..];
    }
  }

  /** An entry that carries on shows its own name exactly when it is
      granted. */
  lemma EntryDisplays(cfg: Config, dir: string, selector: string, name: FileName, fs: FileSystem)
    requires |selector| < LINE_MAX
    ensures var st := MenuEntry(cfg, dir, selector, name, fs);
            && (st.Stop? ==> st.outcome != Done)
            && (st.Continue? ==> Displays(st.lines) == if EntryGranted(dir, name, fs) then [name] else [])
  {
    if Join(dir, name).Some? {
      var path := Join(dir, name).value;
      var c := ItemType(path, fs.lstat(path), fs.mime(path));
      if c.Classified? {
        var rights := CheckRights(path, c.itemType, fs.access);
        JoinShortParts(selector, name);
        var it := [ItemLine(Item(c.itemType, name, Join(selector, name).value, cfg.host, cfg.port))];
        var tail: seq<Line> := if rights.granted then it else [];
        assert Displays(it) == [name] by { assert it[1..] == []; }
        DisplaysNoItem(c.report);
        DisplaysNoItem(rights.report);
        DisplaysAppend(rights.report, tail);
        DisplaysAppend(c.report, rights.report + tail);
        assert c.report + EntryLines(cfg, selector, name, path, c.itemType, fs) == c.report + (rights.report + tail);
      }
    }
  }

  /** A listing that completes shows exactly the granted names, in order. */
  lemma {:induction false} MenuEntriesGranted(cfg: Config, dir: string, selector: string, names: seq<FileName>, fs: FileSystem)
    requires |selector| < LINE_MAX
    ensures var r := MenuEntries(cfg, dir, selector, names, fs);
            r.outcome == Done ==> Displays(r.lines) == GrantedNames(dir, names, fs)
    decreases |names|
  {
    var r := MenuEntries(cfg, dir, selector, names, fs);
    if names == [] {
      assert Displays(r.lines) == [] by { assert r.lines[1..] == []; }
    } else {
      EntryDisplays(cfg, dir, selector, names[0], fs);
      var st := MenuEntry(cfg, dir, selector, names[0], fs);
      if st.Continue? {
        var rest := MenuEntries(cfg, dir, selector, names[1..], fs);
        MenuEntriesGranted(cfg, dir, selector, names[1..], fs);
        DisplaysAppend(st.lines, rest.lines);
      }
    }
  }

  /** write_menu lists every entry it may and no other: when the listing
      completes, its items show exactly, in alphasort order, the names
      scandir selects whose path fits, that itemtype classifies and that
      check_rights grants. So of ten readable files and one unreadable
      file, the ten are listed. */
  lemma MenuListsGranted(cfg: Config, dir: string, selector: string, fs: FileSystem)
    requires |selector| < LINE_MAX && fs.scandir(dir).Listing?
    ensures var names := fs.scandir(dir).names;
            var r := WriteMenuSpec(cfg, dir, selector, fs);
            r.outcome == Done ==>
              && Displays(r.lines) == GrantedNames(dir, ScanDir(names), fs)
              && forall x :: x in Displays(r.lines) <==> x in names && EntrySelect(x) && EntryGranted(dir, x, fs)
  {
    var names := fs.scandir(dir).names;
    ScanDirCorrect(names);
    MenuEntriesGranted(cfg, dir, selector, ScanDir(names), fs);
    GrantedNamesIn(dir, ScanDir(names), fs);
  }

  /** handle_directory: the gophermap when check_rights grants reading
      it, with nothing sent before it; otherwise check_rights' report and
      then the listing, and a map that is missing or unreadable (ENOENT or
      EACCES) is passed over silently. */
  lemma DirectoryDispatch(cfg: Config, dir: string, selector: string, fs: FileSystem)
    requires |selector| < LINE_MAX && JoinIsSafe(dir) && Join(dir, GOPHERMAP).Some?
    ensures var mapPath := Join(dir, GOPHERMAP).value;
            var c := CheckRights(mapPath, IT_FILE, fs.access);
            var r := HandleDirectorySpec(cfg, dir, selector, fs);
            var m := WriteMenuSpec(cfg, dir, selector, fs);
            && (c.granted <==> fs.access(mapPath, ReadOnly).Accessible?)
            && (c.granted ==> r == WriteGophermapSpec(cfg, selector, mapPath, fs))
            && (!c.granted ==> r.outcome == m.outcome && r.lines == c.report + m.lines)
            && (fs.access(mapPath, ReadOnly).Denied? && fs.access(mapPath, ReadOnly).errno in {EACCES, ENOENT} ==> r == m)
  {
    var mapPath := Join(dir, GOPHERMAP).value;
    var c := CheckRights(mapPath, IT_FILE, fs.access);
    if c.granted {
      assert c.report == [];
    }
  }

  /** Where a line of a gophermap response comes from: an item is the parse
      of one of the map's lines holding a tab; every other line is a notice
      or the terminator. */
  predicate FromMap(cfg: Config, selector: string, chunks: seq<string>, l: Line)
    requires |selector| < LINE_MAX
  {
    match l
    case ItemLine(it) =>
      exists c | c in chunks :: '\t' in LineOf(c) && |LineOf(c)| < LINE_MAX
                               && ParseDirective(selector, LineOf(c), cfg.host, cfg.port) == Parsed(it)
    case FakeLine(_, _) => IsFake(l)
    case Terminator => true
  }

  /** A gophermap response adds no item the map does not name. */
  lemma {:induction false} MapLinesFromMap(cfg: Config, selector: string, mapPath: string, chunks: seq<string>)
    requires |selector| < LINE_MAX
    requires forall k | 0 <= k < |chunks| :: |chunks[k]| < LINE_MAX
    ensures forall l | l in MapLines(cfg, selector, mapPath, chunks).lines :: FromMap(cfg, selector, chunks, l)
    decreases |chunks|
  {
    if chunks != [] {
      var line := LineOf(chunks[0]);
      var st := MapLine(cfg, selector, mapPath, line);
      forall l | l in st.lines ensures FromMap(cfg, selector, chunks, l) {
        if l.ItemLine? {
          assert '\t' in line && ParseDirective(selector, line, cfg.host, cfg.port) == Parsed(l.item);
          assert chunks[0] in chunks;
        }
      }
      if st.Continue? {
        var rest := chunks[1..];
        MapLinesFromMap(cfg, selector, mapPath, rest);
        forall l | l in MapLines(cfg, selector, mapPath, rest).lines ensures FromMap(cfg, selector, chunks, l) {
          assert FromMap(cfg, selector, rest, l);
          if l.ItemLine? {
            var c :| c in rest && '\t' in LineOf(c) && |LineOf(c)| < LINE_MAX
                     && ParseDirective(selector, LineOf(c), cfg.host, cfg.port) == Parsed(l.item);
            assert c in chunks;
          }
        }
      }
    }
  }

  /** write_gophermap sends the parses of the map's own directives and
      notices, never an item of its own making. */
  lemma GophermapFromMap(cfg: Config, selector: string, mapPath: string, fs: FileSystem)
    requires |selector| < LINE_MAX && fs.open(mapPath).Opened?
    ensures var chunks := Chunks(fs.open(mapPath).content);
            && (forall k | 0 <= k < |chunks| :: |chunks[k]| < LINE_MAX)
            && forall l | l in WriteGophermapSpec(cfg, selector, mapPath, fs).lines :: FromMap(cfg, selector, chunks, l)
  {
    ChunksFit(fs.open(mapPath).content);
    MapLinesFromMap(cfg, selector, mapPath, Chunks(fs.open(mapPath).content));
  }

  /** The items among `ls`, in order. */
  function Items(ls: seq<Line>): seq<Item> {
    if ls == [] then [] else (if ls[0].ItemLine? then [ls[0].item] else []) + Items(ls[1..])
  }

  lemma {:induction false} ItemsAppend(a: seq<Line>, b: seq<Line>)
    ensures Items(a + b) == Items(a) + Items(b)
  {
    if a != [] {
      assert (a + b)[1..] == a[1..] + b;
      ItemsAppend(a[1..], b);
    } else {
      assert a + b == b;
    }
  }

  /** The items the directives of a map name, in the map's order: the parse
      of each read whose line holds a tab and which gophermap_parse_item
      accepts. */
  function ParsedItems(cfg: Config, selector: string, chunks: seq<string>): seq<Item>
    requires |selector| < LINE_MAX
    requires forall k | 0 <= k < |chunks| :: |chunks[k]| < LINE_MAX
  {
    if chunks == [] then []
    else
      var line := LineOf(chunks[0]);
      var d := if '\t' in line then ParseDirective(selector, line, cfg.host, cfg.port) else Malformed;
      (if d.Parsed? then [d.item] else []) + ParsedItems(cfg, selector, chunks[1..])
  }

  /** A gophermap response that completes sends every directive the parser
      accepts, as its item, in the map's order, and no other item. */
  lemma {:induction false} MapLinesItems(cfg: Config, selector: string, mapPath: string, chunks: seq<string>)
    requires |selector| < LINE_MAX
    requires forall k | 0 <= k < |chunks| :: |chunks[k]| < LINE_MAX
    ensures var r := MapLines(cfg, selector, mapPath, chunks);
            r.outcome == Done ==> Items(r.lines) == ParsedItems(cfg, selector, chunks)
    decreases |chunks|
  {
    var r := MapLines(cfg, selector, mapPath, chunks);
    if chunks == [] {
      assert Items(r.lines) == [] by { assert r.lines[1..] == []; }
    } else {
      var line := LineOf(chunks[0]);
      var st := MapLine(cfg, selector, mapPath, line);
      if st.Continue? {
        var rest := MapLines(cfg, selector, mapPath, chunks[1..]);
        MapLinesItems(cfg, selector, mapPath, chunks[1..]);
        ItemsAppend(st.lines, rest.lines);
        var d := if '\t' in line then ParseDirective(selector, line, cfg.host, cfg.port) else Malformed;
        assert Items(st.lines) == if d.Parsed? then [d.item] else [] by {
          if |st.lines| == 2 {
            assert st.lines[1..][1..] == [];
          } else {
            assert st.lines[1..] == [];
          }
        }
      }
    }
  }

  /** write_gophermap, when it completes, sends exactly the items of the
      map's accepted directives, in order. */
  lemma GophermapItems(cfg: Config, selector: string, mapPath: string, fs: FileSystem)
    requires |selector| < LINE_MAX && fs.open(mapPath).Opened?
    ensures var chunks := Chunks(fs.open(mapPath).content);
            var r := WriteGophermapSpec(cfg, selector, mapPath, fs);
            && (forall k | 0 <= k < |chunks| :: |chunks[k]| < LINE_MAX)
            && (r.outcome == Done ==> Items(r.lines) == ParsedItems(cfg, selector, chunks))
  {
    ChunksFit(fs.open(mapPath).content);
    MapLinesItems(cfg, selector, mapPath, Chunks(fs.open(mapPath).content));
  }

  /** A map line without a tab is sent verbatim as an info line, whose
      bytes are `i`, the line, then the fake selector, host and port. */
  lemma TabFreeLine(cfg: Config, selector: string, mapPath: string, line: string)
    requires |selector| < LINE_MAX && '\t' !in line && |line| < LINE_MAX - 1
    ensures MapLine(cfg, selector, mapPath, line) == Continue([InfoLine(line, None)])
    ensures Render(InfoLine(line, None)) == "i" + line + "\t/\tfake\t1\r\n"
  {
  }

  // ----- what a request reaches -----

  /** ServePath hands over only the path it was given, and only when lstat
      found a regular file there; its MIME type picks the writer. */
  lemma PathFileConfined(cfg: Config, fs: FileSystem, path: string, selector: string)
    requires |selector| < LINE_MAX
    ensures var r := ServePath(cfg, fs, path, selector);
            !KeepsStream(r.outcome) ==>
              && r.outcome.path == path
              && fs.lstat(path) == StatOk(Regular) && fs.mime(path).Some?
              && (r.outcome.TextFile? <==> MimeItemType(fs.mime(path).value) == IT_FILE)
  {
    var c := ItemType(path, fs.lstat(path), fs.mime(path));
    if c.Classified? && c.itemType == IT_DIR {
      DirectoryWellEnded(cfg, path, selector, fs);
    }
  }

  /** With the corrected request check, a file is handed to a file writer
      only from under the document root: its path is the root joined with a
      selector that passed the check, whose components never start with '.';
      lstat found a regular file there, and its MIME type picks the writer. */
  lemma ServedFileConfined(cfg: Config, fs: FileSystem, stdin: Stdin)
    ensures var r := ServeSpec(cfg, fs, stdin, true);
            !KeepsStream(r.outcome) ==>
              && stdin.Received? && stdin.content != []
              && var request := RequestLine(stdin.content);
                 var path := r.outcome.path;
                 && CheckRequestFixed(request)
                 && NoDotComponent(ServedSelector(request))
                 && Join(cfg.root, ServedSelector(request)) == Some(path)
                 && cfg.root <= path
                 && fs.lstat(path) == StatOk(Regular) && fs.mime(path).Some?
                 && (r.outcome.TextFile? <==> MimeItemType(fs.mime(path).value) == IT_FILE)
  {
    if stdin.Received? && stdin.content != [] {
      var request := RequestLine(stdin.content);
      if RequestAccepted(true, request) {
        var selector := ServedSelector(request);
        CheckRequestFixedNoDot(request);
        if request == [] {
          assert NoDotComponent("/");
        }
        if JoinIsSafe(cfg.root) && Join(cfg.root, selector).Some? {
          var path := Join(cfg.root, selector).value;
          PathFileConfined(cfg, fs, path, selector);
          JoinShape(cfg.root, selector);
        }
      }
    }
  }

  /** A request check_request rejects gets the request error naming it,
      whatever the document root holds; so does one the corrected check
      rejects, when it is in use. */
  lemma InvalidRequestRefused(cfg: Config, fs: FileSystem, content: string, fixed: bool)
    requires content != [] && !RequestAccepted(fixed, RequestLine(content))
    ensures ServeSpec(cfg, fs, Received(content), fixed)
            == Response(Failure(REQUEST_ERROR, RequestLine(content), REQUEST_INFO, None), Failed)
  {
  }

  /** A request line check_request accepts is served, whatever the check
      that is in use, as the selector it names, unless it has an empty
      component and the corrected check is in use; then it is refused. */
  lemma ValidRequestServed(cfg: Config, fs: FileSystem, request: string, fixed: bool)
    requires |request| < LINE_MAX && CheckRequest(request)
    ensures fixed && !NoEmptyComponent(request) ==>
              RequestResponse(cfg, fs, request, fixed)
              == Response(Failure(REQUEST_ERROR, request, REQUEST_INFO, None), Failed)
    ensures !fixed || NoEmptyComponent(request) ==>
              RequestResponse(cfg, fs, request, fixed) == SelectorResponse(cfg, fs, ServedSelector(request))
  {
    CheckRequestFixedIff(request);
  }

  /** As written, main serves `//../etc`: the request line reaches the
      path the selector names under the document root, which for the root
      `/srv/gopher` is `/srv/gopher//../etc`. The corrected check refuses it. */
  lemma TraversalServed(cfg: Config, fs: FileSystem)
    requires cfg.root == "/srv/gopher"
    ensures ServeSpec(cfg, fs, Received("//../etc\r\n"), false)
            == ServePath(cfg, fs, "/srv/gopher//../etc", "//../etc")
    ensures ServeSpec(cfg, fs, Received("//../etc\r\n"), true)
            == Response(Failure(REQUEST_ERROR, "//../etc", REQUEST_INFO, None), Failed)
  {
    var content := "//../etc\r\n";
    assert RequestLine(content) == "//../etc" by {
      SpanStopsAt(content, '\n', 9);
      assert ChunkLength(content) == |content|;
      assert content[..ChunkLength(content)] == content;
      SpanStopsAt(content, '\0', |content|);
      assert CPrefix(content) == content;
      assert content == "//../etc\r" + "\n" + "";
      StrippedLineEnding("//../etc\r", "");
    }
    DoubleSlashEscapes();
    CheckRequestFixedIff("//../etc");
    assert !NoEmptyComponent("//../etc") by { assert "//../etc"[0] == '/' && "//../etc"[1] == '/'; }
  }

  /** The empty request is served exactly as "/" is. */
  lemma EmptyRequestIsRoot(cfg: Config, fs: FileSystem, fixed: bool)
    ensures RequestResponse(cfg, fs, [], fixed) == RequestResponse(cfg, fs, "/", fixed)
  {
  }
}
