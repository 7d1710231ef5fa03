# mgopherd request core in Dafny

mgopherd is a one-shot Gopher server (RFC 1436) started once per connection by
inetd. It reads one request line from standard input and answers on standard
output. This project models how it turns that request into a response:

- `check_request` and its regular expression;
- `tool_join_path` and `tool_strip_crlf`;
- what `main` decides about the item the selector names (`itemtype`,
  `check_rights`, the dispatch switch);
- `handle_directory`, which chooses between the gophermap and the listing;
- the listing (`write_menu` with `entry_select` and `alphasort`);
- the gophermap (`write_gophermap`, `gophermap_parse_item`);
- the line formatter of `send.c`.

Modules follow the source files:

| module | models |
|---|---|
| `CStrings` | limits (LINE_MAX 2048, PATH_MAX 4096, NAME_MAX 255), C strings without NUL, strcspn as `Span`/`Token`/`After`, fields (`Split`) |
| `ItemTypes` | itemtypes.h |
| `Send` | send.c: `Item`, `Line`, the wire format `Render`/`Wire`, and the `Output` stream class |
| `Tools` | tools.c: `Join` and its buffer algorithm `JoinBuffer`, `Stripped` and the in-place `StripCrlf` |
| `Request` | the request regex as the predicate `CheckRequest`, and the corrected `CheckRequestFixed` |
| `Classify` | `itemtype`'s MIME cascade, `check_rights`, `entry_select`, alphasort order |
| `Gophermap` | `gophermap_parse_item` as the function `ParseDirective` and the cursor method `ParseItem` |
| `Env`, `Options` | the file system, libmagic and standard input as oracles; the parsed options |
| `Server` | `main`, `handle_directory`, `write_menu`, `write_gophermap`: one spec function per step, plus a method that does the step on the stream |
| `Properties` | lemmas about whole responses |

How the model is built:

- **The stream.** It is an `Output` object. Its field `sent` holds the lines
  written so far. Its bytes `Text()` are their rendering, which
  `Output.Put` shows only ever grows by the bytes of the new line.
- **Spec functions and methods.** Every pure spec function in `Server`
  (`ServeSpec`, `HandleDirectorySpec`, `WriteMenuSpec`,
  `WriteGophermapSpec`, …) returns a `Response`: the lines sent, and how the
  response ends (`Outcome`). The matching method ends with exactly those
  lines appended to `sent`.
- **Outcomes.**
  - `Done` and `Failed` close the response with `.` CR LF. `Failed` is the
    path that ends in `exit(EXIT_FAILURE)`.
  - `Aborted` is an `assert` that fails on a NULL path.
  - `Undefined` is a step whose behaviour C leaves undefined.
  - `TextFile` and `BinaryFile` hand the rest of the response to the file
    writers, which are not modelled.

Points where the code behaves in a way worth stating, which the model
follows:

- An over-long path aborts: `tool_join_path` sends its error item and
  returns NULL, and the next `itemtype` fails its `assert(path != NULL)`, so
  the outcome is `Aborted`.
- Failures on single listing entries are reported inline: an `lstat`
  failure, or an `access` error other than EACCES or ENOENT, sends an error
  item and an info item in the middle of the listing, which carries on.
- Classification calls `lstat`, which does not follow symbolic links, so a
  link is neither a file nor a directory and is never served.
- The request expression is written `[^\.]`, which under POSIX bracket rules
  excludes both `.` and `\`.
- `main` checks requests with that expression as written. Every response
  function and method takes a flag `fixed`: `false` is `main` as written,
  `true` is `main` with the corrected expression of the Findings section.

## Model

| member | source | states |
|---|---|---|
| CStrings.Span | gophermap.c:38 | strcspn from an offset: the index of the first delimiter at or after it, or the end; nothing before it is the delimiter |
| CStrings.Token | gophermap.c:38-53 | the run before the first delimiter is a prefix of the string and holds no delimiter |
| CStrings.After | gophermap.c:53-61 | the cursor after the run and its delimiter never grows, and strictly shrinks when a delimiter is present |
| CStrings.TokenAfter | gophermap.c:38-61 | a string holding the delimiter is its token, the delimiter and what follows |
| CStrings.SplitUnsplit | gophermap.c:38-115 | the tab fields the parser walks through lose nothing: gluing them back gives the line |
| CStrings.SplitFree | gophermap.c:38-115 | no field holds the delimiter |
| CStrings.Strcspn | gophermap.c:38 | the strcspn loop returns the span `Span` defines |
| CStrings.ReadCString | send.c:65-76 | reading a buffer up to its NUL gives exactly the characters before it |
| Send.WireAppend | send.c:29-30 | the bytes of two line sequences are the bytes of the first followed by the bytes of the second |
| Send.FormatItem | send.c:29-30 | defines the line send_item prints: type, display, TAB, selector, TAB, host, TAB, port, CR LF; `ParseFormatRoundTrip` proves it loses nothing |
| Send.Render | send.c:23-89 | defines the bytes of each kind of line: an item's `FormatItem`, a synthetic item's, and `.` CR LF; `WireAppend` proves the stream's bytes compose |
| Send.FakeItem | send.c:59-89 | defines the item send_fake_item builds; `FakeLines` states its fields |
| Send.ParseFormatRoundTrip | send.c:29-30 | a client parsing a menu line written by send_item gets back the same item when no field holds a tab |
| Send.Truncate | send.c:76 | snprintf keeps all of a string that fits, and otherwise exactly its first n characters: a prefix of length n |
| Send.FakeDisplay | send.c:73-76 | the synthetic display always fits a LINE_MAX buffer with its NUL |
| Send.FakeLines | send.c:59-89 | a synthetic item carries its code, selector `/`, host `fake`, port `1`; its display is the message alone without a detail, `message: detail` when that fits, and otherwise exactly the first LINE_MAX-1 characters of `message: detail` |
| Send.ErrorThenEomExample | send.c:33-57 | send_error("E: test", "detail") then send_eom writes `3E: test: detail TAB / TAB fake TAB 1 CR LF . CR LF` |
| Send.BuildFakeDisplay | send.c:64-76 | the strncpy or snprintf into the LINE_MAX buffer leaves the display `FakeDisplay` defines |
| Send.Output.Put | send.c:29-30 | writing a line appends it and appends exactly its bytes to the stream's text |
| Send.Output.SendItem | send.c:23-31 | send_item appends its item line |
| Send.Output.SendFakeItem | send.c:59-89 | send_fake_item appends the fake line and exactly the bytes of the synthetic item |
| Send.Output.SendError | send.c:33-40 | send_error appends an error notice (code 3) |
| Send.Output.SendInfo | send.c:42-49 | send_info appends an info notice (code i) |
| Send.Output.SendEom | send.c:51-57 | send_eom appends the terminator |
| Tools.JoinShape | tools.c:69-85 | a join succeeds exactly when first part, separator and second part without its leading slash fit below PATH_MAX; then the first part is a prefix and the rest is the second part without its slash |
| Tools.Join | tools.c:57-88 | defines tool_join_path's result: part1, `/` unless part1 is empty or ends in `/`, part2 without a leading `/`, or None when that does not fit below PATH_MAX; `JoinShape` and `JoinBuffer` state it |
| Tools.Stripped | tools.c:90-100 | defines tool_strip_crlf's result: the line cut at its first LF, and at a CR just before it; `StrippedProperties` and `StrippedLineEnding` state it |
| Tools.JoinEmptyBase | tools.c:69-80 | joining onto the empty string only drops the leading slash |
| Tools.JoinAssociative | tools.c:69-80 | for slash-free non-empty names, join(join(a,b),c) == join(a,join(b,c)) |
| Tools.JoinShortParts | tools.c:57-88 | two parts from LINE_MAX buffers always join, without overrunning the buffer |
| Tools.JoinNoNul | tools.c:69-80 | the join of C strings is a C string |
| Tools.Strncpy | tools.c:80 | strncpy copies the source and pads with NUL up to the count, and changes nothing outside those bytes |
| Tools.JoinBuffer | tools.c:69-87 | stpncpy, the separator, strncpy and the test of the last byte compute exactly `Join`: the joined string, or NULL when it does not fit |
| Tools.JoinPath | tools.c:57-88 | tool_join_path returns `Join`; it sends the join error item exactly when the result is NULL, and nothing otherwise |
| Tools.StrippedProperties | tools.c:95-99 | the stripped line is a prefix of the line with no newline; stripping is idempotent; a line without a newline, including a lone trailing CR, is kept |
| Tools.StrippedLineEnding | tools.c:95-99 | a line ending in CR LF or LF loses exactly that ending |
| Tools.StrippedNoNul | tools.c:95-99 | stripping keeps a C string a C string and never lengthens it |
| Tools.StripCrlf | tools.c:90-100 | the in-place strip leaves `Stripped` of the buffer's string in it, terminated, and changes at most that one byte |
| Request.CheckRequestMatchesRegex | mgopherd.c:32 | check_request accepts a request exactly when it is `/` or a concatenation of segments `/`, a character other than `.` or `\`, then a run without `/` (the empty request included) |
| Request.CheckRequest | mgopherd.c:142-182 | defines check_request: `/`, or `Segments`; equal to the language of the expression by `CheckRequestMatchesRegex` |
| Request.Segments | mgopherd.c:32 | defines `(/[^\.][^/]*)*` by recursion over the segments |
| Request.CheckRequestFixed | mgopherd.c:32 | defines the corrected expression, whose segment head `[^/.\]` also excludes `/`; `CheckRequestFixedNoDot` and `CheckRequestFixedIff` state it |
| Request.RequestAccepted | mgopherd.c:84 | the check main applies: check_request as written, or the corrected one when `fixed` |
| Request.AcceptedStartsWithSlash | mgopherd.c:32 | every accepted request is empty or starts with `/` |
| Request.AcceptedExamples | mgopherd.c:32 | the empty request, `/` and `/pub/doc` are accepted |
| Request.RejectedExamples | mgopherd.c:32 | `/../etc/passwd`, `/.hidden`, a relative request and `/\x` are rejected |
| Request.TraversalAccepted | mgopherd.c:32 | `//..` and `//../etc` are accepted |
| Request.DoubleSlashEscapes | mgopherd.c:32 | as written the check accepts `//../etc`, which has a `..` component, and joined onto a root it names a path with `..` in it |
| Request.CheckRequestFixedNoDot | mgopherd.c:32 | with the corrected expression, no component of an accepted request starts with `.` |
| Request.CheckRequestFixedIff | mgopherd.c:32 | the corrected check accepts exactly what check_request accepts and has no empty component |
| Classify.MimeItemType | mgopherd.c:314-334 | the MIME cascade always yields one of the seven file types |
| Classify.MimeCascade | mgopherd.c:317-333 | each code is given to exactly its MIME types: `text/html` h, other `text/` 0, `image/gif` g, other `image/` I, `audio/` or ogg s, bzip2/gzip/zip 5, anything else 9 |
| Classify.PrefixesDisjoint | mgopherd.c:317-327 | no MIME type has two of the text, image and audio prefixes |
| Classify.ApplicationTypes | mgopherd.c:325-330 | the four exact application types have none of the text, image and audio prefixes, so the cascade reaches them |
| Classify.ItemType | mgopherd.c:300-342 | itemtype: a directory is 1, a regular file gets `MimeItemType` of its MIME type, anything else (a symlink included) or an lstat failure is `?`; only an lstat failure sends an error and an info item; a NULL MIME type is the dereference |
| Classify.SendItemType | mgopherd.c:300-342 | the method sends exactly the report of `ItemType` and returns its type |
| Classify.RequiredMode | mgopherd.c:257-274 | R_OK exactly for the seven file types, R_OK plus X_OK exactly for a directory, nothing for any other code |
| Classify.CheckRights | mgopherd.c:251-287 | granted exactly when the type has a mode and access allows it; EACCES and ENOENT are silent, any other errno sends an error and an info item |
| Classify.SendCheckRights | mgopherd.c:251-287 | the method returns `CheckRights`' answer and sends exactly its report |
| Classify.CheckRightsRefuses | mgopherd.c:271-273 | `?`, `3` and `i` are refused without any access check |
| Classify.Selected | mgopherd.c:289-298 | entry_select keeps exactly the names not starting with `.` |
| Classify.EntrySelect | mgopherd.c:289-298 | entry_select accepts a name exactly when it does not start with `.` |
| Classify.LexLe | mgopherd.c:207-208 | defines strcmp order on names; `LexLeTotal`, `LexLeTransitive`, `LexLeReflexive` and `LexLeAntisymmetric` make it a total order |
| Classify.LexLeTotal | mgopherd.c:207-208 | strcmp order is total |
| Classify.LexLeTransitive | mgopherd.c:207-208 | strcmp order is transitive |
| Classify.LexLeReflexive | mgopherd.c:207-208 | strcmp order is reflexive |
| Classify.LexLeAntisymmetric | mgopherd.c:207-208 | two names each at most the other are equal |
| Classify.SortNames | mgopherd.c:207-208 | defines alphasort's result, computed by insertion; `SortNamesCorrect` and `SortedUnique` pin it as the one strcmp-sorted arrangement |
| Classify.InsertMultiset | mgopherd.c:207-208 | inserting a name adds exactly that name to the multiset |
| Classify.InsertSorted | mgopherd.c:207-208 | inserting into a sorted sequence keeps it sorted |
| Classify.SortedCons | mgopherd.c:207-208 | a name at most every element of a sorted sequence can be put in front of it |
| Classify.ScanDir | mgopherd.c:207-208 | scandir with entry_select and alphasort: sorted, the selected names as a multiset, and exactly the names not starting with `.` |
| Classify.SortNamesCorrect | mgopherd.c:207-208 | the alphasort order is sorted by strcmp and a permutation of the selected names |
| Classify.SortedUnique | mgopherd.c:207-208 | two sorted permutations of the same names are equal, so the order does not depend on how scandir sorts |
| Classify.ScanDirCorrect | mgopherd.c:207-208 | scandir's result is sorted, has each selected name as often as the directory, and holds exactly the names not starting with `.` |
| Gophermap.MalformedFields | gophermap.c:31-60 | a line is rejected exactly when it starts with a tab, its first field is empty, or it has only one field |
| Gophermap.ParseDirective | gophermap.c:21-140 | defines gophermap_parse_item's answer on a line: None for a malformed line, else the item; `MalformedIff`, `ParsedFields` and `DirectiveRoundTrip` state it |
| Gophermap.IsRelative | gophermap.c:63-64 | defines the `relative` test: a non-empty field not starting with `/` or `GET ` |
| Gophermap.StartsWithGet | gophermap.c:64 | defines `strncasecmp(p, "GET ", 4) == 0`; `StartsWithGetField` and `ParseKeepsGetAndPlus` use it |
| Gophermap.Resolve | gophermap.c:63-88 | defines the selector: a relative field joined onto the directory's selector, any other kept; `ResolveRelative` states it |
| Gophermap.Defaulted | gophermap.c:94-131 | defines the host and port rule: the configured value for an empty field or `+`; `ParseFour` and `ParseKeepsGetAndPlus` state it |
| Gophermap.MalformedIff | gophermap.c:31-60 | a line is rejected exactly when it starts with a tab, holds no tab after its type, or has a tab right after its type |
| Gophermap.ParsedFields | gophermap.c:36-137 | an accepted line gives the type character, the first field as display, the second resolved as selector, and the third and fourth with defaults as host and port; later fields are ignored |
| Gophermap.ParsedTypeAndDisplay | gophermap.c:36-53 | the type is the first character and the display the non-empty tab-free run after it, followed by a tab |
| Gophermap.ResolveRelative | gophermap.c:63-77 | a relative selector is the directory's selector, a slash if needed, then the field |
| Gophermap.ParseDefaults | gophermap.c:91-131 | a line that ends after its selector gets the configured host and port |
| Gophermap.ParseFour | gophermap.c:63-137 | four tab-free fields are read field by field, `+` or empty host or port becoming the configured one |
| Gophermap.DirectiveRoundTrip | gophermap.c:21-140 | an absolute item with its own host and port, written as a directive, parses back to that item, and that directive plus CR LF is send_item's line |
| Gophermap.ParseKeepsGetAndPlus | gophermap.c:63-131 | `GET /` is kept verbatim, and `++` and `+x` are not the default marker |
| Gophermap.RelativeExample | gophermap.c:63-137 | `0Display TAB foo TAB + TAB +` in the map of `/x` gives the item `0`, `Display`, `/x/foo`, host, port |
| Gophermap.AbsoluteExample | gophermap.c:78-137 | `0Display TAB /abs/path TAB host TAB 70` keeps `/abs/path`, `host` and `70` |
| Gophermap.StartsWithGetField | gophermap.c:64 | strncasecmp on the rest of the line answers as it would on the field alone |
| Gophermap.ParseItem | gophermap.c:21-140 | the cursor parse returns true exactly when `ParseDirective` accepts, with its item, and sends the malformed-line error exactly when it rejects |
| Gophermap.ParseDisplay | gophermap.c:38-61 | the display is the run before the first tab, and the cursor stands after that tab |
| Gophermap.ParseFields | gophermap.c:63-131 | selector, host and port are the next three runs, resolved and defaulted, and nothing is sent |
| Gophermap.ReadDefaulted | gophermap.c:94-110 | a host or port field, or the configured one for an empty field or `+` |
| Gophermap.ParseSelector | gophermap.c:63-92 | the selector field resolved, and the cursor past it |
| Server.ChunkLength | mgopherd.c:470 | one fgets takes through the first newline, at most LINE_MAX-1 bytes, and at least one byte of a non-empty input |
| Server.Chunks | mgopherd.c:470 | defines the successive reads of a fgets loop; `ChunksCover` and `ChunksFit` state them |
| Server.CPrefix | mgopherd.c:470-471 | the C string a read leaves in the buffer is a NUL-free prefix of the read |
| Server.FirstChunk | mgopherd.c:470 | a read holds a newline only as its last byte, and stops short of one only at LINE_MAX-1 bytes or at the end |
| Server.ChunksCover | mgopherd.c:470 | the successive reads take the whole input in order |
| Server.ChunksFit | mgopherd.c:470 | each read fits in the buffer |
| Server.LineOf | mgopherd.c:470-471 | the line a read yields is a C string no longer than the read |
| Server.RequestLine | mgopherd.c:72-82 | the request line is a C string shorter than LINE_MAX |
| Server.SendFailure | mgopherd.c:86-89 | an error item, an info item and the terminator are appended |
| Server.MapLine | mgopherd.c:472-483 | defines one map line's step; `MapLineStep` performs it, `TabFreeLine` states that a line without a tab is sent verbatim as an info line, and `MapLinesFromMap`/`MapLinesItems` state which items are sent |
| Server.MapLines | mgopherd.c:470-493 | defines the gophermap loop's lines; `MapLoop` performs it, `MapLinesWellEnded` states its ending, `MapLinesFromMap` that every item comes from a directive, and `MapLinesItems` that every accepted directive is sent, in order |
| Server.WriteGophermapSpec | mgopherd.c:443-496 | defines write_gophermap's response; `GophermapWellEnded`, `GophermapFromMap` and `GophermapItems` state it |
| Server.MenuEntry | mgopherd.c:218-244 | defines one listed entry's step; `EntryItemIffGranted` and `EntryDisplays` state it |
| Server.MenuEntries | mgopherd.c:217-246 | defines the listing loop's lines; `MenuEntriesListing`, `MenuEntriesSorted` and `MenuEntriesGranted` state them |
| Server.WriteMenuSpec | mgopherd.c:200-249 | defines write_menu's response; `MenuListsSelected` and `MenuListsGranted` state it |
| Server.HandleDirectorySpec | mgopherd.c:184-198 | defines handle_directory's response; `DirectoryDispatch` and `DirectoryWellEnded` state it |
| Server.ServePath | mgopherd.c:98-133 | defines the response for a joined path: itemtype's report, then `ItemResponse`; `PathWellEnded` and `PathFileConfined` state it |
| Server.ItemResponse | mgopherd.c:107-133 | defines main's switch on the item type |
| Server.ServeSpec | mgopherd.c:53-140 | defines main's whole response; `ServeWellEnded`, `ServedFileConfined`, `InvalidRequestRefused` and `TraversalServed` state it |
| Server.RequestResponse | mgopherd.c:84-107 | defines the response to a request line under either check; `ValidRequestServed` and `EmptyRequestIsRoot` state it |
| Server.ReadChunk | mgopherd.c:470-471 | the buffer then holds `LineOf` of the read, terminated |
| Server.MapLineStep | mgopherd.c:472-483 | one map line: a directive's item, or the malformed error and the parse notice; an info line for a line without a tab |
| Server.ReadAndStep | mgopherd.c:470-483 | one loop turn reads the next chunk and sends what `MapLine` says for it |
| Server.MapLinesStep | mgopherd.c:470-493 | the map response is the first line's step and then the rest |
| Server.MapLoop | mgopherd.c:470-493 | the fgets loop sends exactly `MapLines` of the file's reads |
| Server.WriteGophermap | mgopherd.c:443-496 | write_gophermap sends exactly `WriteGophermapSpec`: the fopen failure, or the map's lines and the terminator |
| Server.MenuEntryStep | mgopherd.c:218-244 | one listed entry sends exactly `MenuEntry`'s lines |
| Server.TypedEntry | mgopherd.c:220-244 | an entry whose path is known: itemtype's report, then the entry |
| Server.ListEntry | mgopherd.c:221-240 | check_rights' report, then the item if granted |
| Server.MenuEntriesStep | mgopherd.c:217-245 | the listing is the first entry's step and then the rest |
| Server.MenuLoop | mgopherd.c:217-246 | the for loop over the entries sends exactly `MenuEntries` |
| Server.WriteMenu | mgopherd.c:200-249 | write_menu sends exactly `WriteMenuSpec`: the scandir failure, or the listing and the terminator |
| Server.HandleDirectory | mgopherd.c:184-198 | handle_directory sends exactly `HandleDirectorySpec` |
| Server.OpenDirectory | mgopherd.c:190-195 | joining `gophermap` onto the directory: the join error, or the dispatch |
| Server.ServeDirectory | mgopherd.c:192-195 | map file if check_rights grants it, listing otherwise |
| Server.Serve | mgopherd.c:53-140 | main writes to standard output exactly the bytes of `ServeSpec`'s lines, and ends as it says; with `fixed` false the request is checked by check_request as written |
| Server.Respond | mgopherd.c:72-90 | the fgets error, the end of input, or the request served |
| Server.HandleRequest | mgopherd.c:84-98 | a request check_request rejects (the corrected check, when `fixed`) is refused; the empty request is rewritten in place to `/`; then the selector is served |
| Server.ServeSelector | mgopherd.c:98-107 | the selector joined onto the root, then served |
| Server.ServeJoined | mgopherd.c:98-107 | a NULL join aborts after its error item; otherwise the path is served |
| Server.ServeItem | mgopherd.c:107-133 | itemtype's report, then the switch |
| Server.ServeType | mgopherd.c:107-133 | the dispatch: text file, binary file, directory, or the invalid-item failure |
| Properties.FailureWellEnded | mgopherd.c:86-89 | a failure response ends with exactly one terminator |
| Properties.MenuEntriesWellEnded | mgopherd.c:217-246 | the listing loop ends with exactly one terminator when it completes, has none when cut short, and never hands over a file |
| Properties.MapLinesWellEnded | mgopherd.c:470-493 | the same for the gophermap loop |
| Properties.GophermapWellEnded | mgopherd.c:443-496 | the same for write_gophermap |
| Properties.MenuWellEnded | mgopherd.c:200-249 | the same for write_menu |
| Properties.DirectoryWellEnded | mgopherd.c:184-198 | the same for handle_directory |
| Properties.PathWellEnded | mgopherd.c:107-133 | whatever the item, the response up to a hand-over to a file writer is well ended |
| Properties.ServeWellEnded | mgopherd.c:53-140 | every response that completes or fails ends with exactly one terminator, as its last line, with either request check; one cut short or handed to a file writer has none |
| Properties.EntryItemIffGranted | mgopherd.c:218-240 | an entry itemtype classifies is sent as exactly one item, with its type, its name, its name joined onto the selector, and the configured host and port, exactly when check_rights grants it; the listing goes on |
| Properties.EntryListing | mgopherd.c:218-240 | the first entry adds at most the item of its own name, plus notices |
| Properties.MenuEntriesListing | mgopherd.c:217-245 | each item of the listing is one of the names, of a file or directory type, with its name joined onto the selector and the configured host and port; every other line is a notice or the terminator |
| Properties.MenuEntriesSorted | mgopherd.c:207-245 | the items of a listing of sorted names come in strcmp order |
| Properties.MenuListsSelected | mgopherd.c:200-249 | every item of write_menu is one of the directory's names that do not start with `.`, well formed, and the items are in strcmp order |
| Properties.GrantedNamesIn | mgopherd.c:217-245 | a name is among the granted names exactly when it is one of the names and its entry is granted |
| Properties.EntryDisplays | mgopherd.c:218-244 | an entry that carries on shows its own name exactly when its path fits, itemtype classifies it and check_rights grants it; one that stops never completes the listing |
| Properties.MenuEntriesGranted | mgopherd.c:217-246 | a completed listing shows exactly the granted names, in their order |
| Properties.MenuListsGranted | mgopherd.c:200-249 | a completed write_menu shows exactly, in alphasort order, the names not starting with `.` whose entry is granted, so an unreadable file among readable ones is the only one left out |
| Properties.DirectoryDispatch | mgopherd.c:190-195 | the gophermap is used exactly when it is readable, and nothing comes before it; otherwise check_rights' report then the listing, and EACCES or ENOENT leave just the listing |
| Properties.MapLinesFromMap | mgopherd.c:470-484 | every item of a gophermap response is the parse of one of the map's lines holding a tab; every other line is a notice or the terminator |
| Properties.GophermapFromMap | mgopherd.c:443-496 | the same for write_gophermap's whole response |
| Properties.ItemsAppend | mgopherd.c:470-484 | the items of two line sequences are the items of the first followed by those of the second |
| Properties.MapLinesItems | mgopherd.c:470-493 | a completed gophermap loop sends exactly the items of the map lines that hold a tab and that gophermap_parse_item accepts, in the map's order, and no other item |
| Properties.GophermapItems | mgopherd.c:443-496 | the same for write_gophermap's whole response |
| Properties.TabFreeLine | mgopherd.c:482-483 | a map line without a tab, shorter than LINE_MAX-1, is sent verbatim as one info line, whose bytes are `i`, the line, TAB `/` TAB `fake` TAB `1` CR LF |
| Properties.PathFileConfined | mgopherd.c:107-120 | a file writer gets only the path itemtype classified, a regular file, and the text writer exactly when its MIME type means text |
| Properties.ServedFileConfined | mgopherd.c:84-120 | with the corrected check in use, a file is handed over only for a request that passed it, has no component starting with `.`, and whose join onto the root gives its path under the root |
| Properties.InvalidRequestRefused | mgopherd.c:84-90 | a request check_request rejects (or the corrected check, when in use) gets the request error naming it, the notice and the terminator, whatever the files hold, and nothing is joined |
| Properties.ValidRequestServed | mgopherd.c:84-107 | a request check_request accepts is served as the selector it names, unless the corrected check is in use and it has an empty component; then it is refused |
| Properties.TraversalServed | mgopherd.c:32-107 | main as written serves the request line `//../etc` CR LF as the path `/srv/gopher//../etc` under the root `/srv/gopher`; with the corrected check it is refused |
| Properties.EmptyRequestIsRoot | mgopherd.c:92-95 | the empty request is served exactly as `/`, with either request check |

## Left out

- `tool_mimetype` (tools.c:23-55) wraps libmagic. The MIME type is an oracle
  `fs.mime`. Its NULL return, which the next `strcmp` dereferences
  (mgopherd.c:317), is the `NullMime` classification with the outcome
  `Undefined`. The error items `tool_mimetype` sends before returning NULL
  are not modelled, since nothing is known after the dereference.
- `write_text_file` and `write_binary_file` (mgopherd.c:344-441) copy a
  file's bytes. They are plain I/O, and `send_line` is declared in send.h but
  has no definition in send.c. The model stops at the hand-over (`TextFile`,
  `BinaryFile`).
- options.c (getopt, realpath, gethostname) is process start-up. The
  configuration is the record `Config` of root, host and port, with the
  guarantees `ValidConfig` names.
- The file system and standard input are oracles (`Env.FileSystem`,
  `Env.Stdin`): total functions for lstat, access/errno, scandir, fopen plus
  the file's bytes, and libmagic. They are fixed for one response. Reads
  are not interleaved with changes to the files.
- Side effects without influence on the response are left out:
  - syslog;
  - free and `gophermap_free_item`;
  - closelog;
  - stdio buffering;
  - the exit status beyond the `Failed` outcome.
- The malloc failure paths are left out, and so is the `port` allocation
  check that tests `host` (gophermap.c:120). An allocation that fails is not
  represented.
- The regcomp and regexec failure paths (mgopherd.c:152-174) are left out.
  The expression is a constant and compiles.
- The `ferror(stdin)` test after the gophermap loop (mgopherd.c:485-492) is
  left out. The loop reads the map file, not standard input, and the one
  read of standard input has already succeeded, so the branch is never
  taken. A read error on the map file ends the loop like end of file.
- NUL bytes inside a read line are not passed on. A line read by fgets is
  cut at its first NUL (`Server.CPrefix`), which is what every later C
  string operation sees.
- The stream is the sequence of lines written. Its bytes are derived from
  those lines (`Send.Output.Text`), not kept as a separate buffer.
- Send.Output.SendItem, Send.Output.SendError, Send.Output.SendInfo,
  Send.Output.SendEom: state only the line appended; the bytes appended
  follow from `Put` and `Render`, and are stated explicitly for
  `SendFakeItem`.

## Findings

| source | as written | input that shows it | evidently intended | confidence | as-written member | corrected member |
|---|---|---|---|---|---|---|
| mgopherd.c:32 | `^(/\|(/[^\.][^/]*)*)$` lets the first character of a segment be `/`, so a `..` component can follow a doubled slash | the request `//../etc`, which joined onto the root `/srv/gopher` names `/srv/gopher//../etc`, outside the root | no component of an accepted selector starts with `.`, which `[^/.\]` as the segment's first character gives | not executed | Request.DoubleSlashEscapes | Request.CheckRequestFixedNoDot |
