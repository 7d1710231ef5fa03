/** The decisions mgopherd.c makes about one path: its item type (itemtype),
    whether it may be served (check_rights), and which directory entries a
    listing shows and in which order (entry_select, alphasort). */
module Classify {
  import opened CStrings
  import opened ItemTypes
  import opened Send
  import opened Env

  predicate HasPrefix(s: string, p: string) {
    |p| <= |s| && s[..|p|] == p
  }

  /** The if/else cascade over the MIME type of a regular file. */
  function MimeItemType(mime: string): (t: char)
    ensures IsFileType(t)
  {
    if mime == "text/html" then IT_HTML
    else if HasPrefix(mime, "text/") then IT_FILE
    else if mime == "image/gif" then IT_GIF
    else if HasPrefix(mime, "image/") then IT_IMAGE
    else if HasPrefix(mime, "audio/") || mime == "application/ogg" then IT_AUDIO
    else if mime == "application/x-bzip2" || mime == "application/x-gzip" || mime == "application/zip" then IT_ARCHIVE
    else IT_BINARY
  }

  /** The nine MIME families a text, image, audio or archive type begins with
      can never be confused: no MIME type has two of these prefixes. */
  lemma PrefixesDisjoint(mime: string)
    ensures !(HasPrefix(mime, "text/") && HasPrefix(mime, "image/"))
    ensures !(HasPrefix(mime, "text/") && HasPrefix(mime, "audio/"))
    ensures !(HasPrefix(mime, "image/") && HasPrefix(mime, "audio/"))
  {
    if HasPrefix(mime, "text/") { assert mime[0] == 't'; }
    if HasPrefix(mime, "image/") { assert mime[0] == 'i'; }
  }

  /** None of the five exact application types has a text, image or audio
      prefix. */
  lemma ApplicationTypes(mime: string)
    requires mime == "application/ogg" || mime == "application/x-bzip2"
             || mime == "application/x-gzip" || mime == "application/zip"
    ensures !HasPrefix(mime, "text/") && !HasPrefix(mime, "image/") && !HasPrefix(mime, "audio/")
  {
    assert mime[0] == 'a' && mime[1] == 'p';
  }

  /** The cascade is order-sensitive: each code is given exactly to the MIME
      types below, a specific type winning over its family. */
  lemma MimeCascade(mime: string)
    ensures MimeItemType(mime) == IT_HTML <==> mime == "text/html"
    ensures MimeItemType(mime) == IT_FILE <==> HasPrefix(mime, "text/") && mime != "text/html"
    ensures MimeItemType(mime) == IT_GIF <==> mime == "image/gif"
    ensures MimeItemType(mime) == IT_IMAGE <==> HasPrefix(mime, "image/") && mime != "image/gif"
    ensures MimeItemType(mime) == IT_AUDIO <==> HasPrefix(mime, "audio/") || mime == "application/ogg"
    ensures MimeItemType(mime) == IT_ARCHIVE <==>
              mime == "application/x-bzip2" || mime == "application/x-gzip" || mime == "application/zip"
    ensures MimeItemType(mime) == IT_BINARY <==>
              && !HasPrefix(mime, "text/") && !HasPrefix(mime, "image/") && !HasPrefix(mime, "audio/")
              && mime != "application/ogg" && mime != "application/x-bzip2"
              && mime != "application/x-gzip" && mime != "application/zip"
  {
    PrefixesDisjoint(mime);
    if mime == "application/ogg" || mime == "application/x-bzip2"
       || mime == "application/x-gzip" || mime == "application/zip" {
      ApplicationTypes(mime);
    }
  }

  /** itemtype's answer: the item type, and the error and info items it
      sends on the way; NullMime when tool_mimetype returned NULL, which
      the next strcmp dereferences. */
  datatype Classification = Classified(itemType: char, report: seq<Line>) | NullMime

  const LSTAT_ERROR: string := "E: lstat"
  const LSTAT_INFO: string := "I: I could not get file status."

  /** itemtype(path): from lstat's answer and, for a regular file, the MIME
      type libmagic finds. */
  function ItemType(path: string, st: StatResult, mime: Option<CString>): (c: Classification)
    ensures c.NullMime? <==> st == StatOk(Regular) && mime.None?
    ensures c.Classified? ==> (c.itemType == IT_DIR <==> st == StatOk(Directory))
    ensures c.Classified? ==> (IsFileType(c.itemType) <==> st == StatOk(Regular))
    ensures c.Classified? && st == StatOk(Regular) ==> c.itemType == MimeItemType(mime.value)
    ensures c.Classified? ==> (c.itemType == IT_IGNORE <==> st.StatError? || st == StatOk(OtherKind))
    ensures c.Classified? ==> (c.report != [] <==> st.StatError?)
    ensures c.Classified? && st.StatError? ==>
              c.report == [ErrorLine(LSTAT_ERROR, Some(st.message)), InfoLine(LSTAT_INFO, Some(path))]
  {
    match st
    case StatError(msg) =>
      Classified(IT_IGNORE, [ErrorLine(LSTAT_ERROR, Some(msg)), InfoLine(LSTAT_INFO, Some(path))])
    case StatOk(Regular) =>
      if mime.None? then NullMime else Classified(MimeItemType(mime.value), [])
    case StatOk(Directory) => Classified(IT_DIR, [])
    case StatOk(OtherKind) => Classified(IT_IGNORE, [])
  }

  /** itemtype, sending its report to the stream. None stands for the NULL
      MIME type that the next strcmp would dereference. */
  method SendItemType(path: string, fs: FileSystem, out: Output) returns (t: Option<char>)
    requires NoNul(path)
    modifies out
    ensures var c := ItemType(path, fs.lstat(path), fs.mime(path));
            && (t.None? <==> c.NullMime?)
            && (c.Classified? ==> t == Some(c.itemType) && out.sent == old(out.sent) + c.report)
            && (c.NullMime? ==> out.sent == old(out.sent))
  {
    var st := fs.lstat(path);
    if st.StatError? {
      ReportsNoNul();
      out.SendError(LSTAT_ERROR, Some(st.message));
      out.SendInfo(LSTAT_INFO, Some(path));
      return Some(IT_IGNORE);
    }
    if st.kind == Regular {
      var mime := fs.mime(path);
      if mime.None? {
        return None;
      }
      t := Some(MimeItemType(mime.value));
    } else if st.kind == Directory {
      t := Some(IT_DIR);
    } else {
      t := Some(IT_IGNORE);
    }
  }

  /** The access check_rights asks for an item type: read for the seven
      file types, read and search for a directory, none for any other code
      (which the server never serves). */
  function RequiredMode(t: char): (m: Option<Mode>)
    ensures m == Some(ReadOnly) <==> IsFileType(t)
    ensures m == Some(ReadSearch) <==> t == IT_DIR
    ensures m.None? <==> !IsFileType(t) && t != IT_DIR
  {
    if IsFileType(t) then Some(ReadOnly)
    else if t == IT_DIR then Some(ReadSearch)
    else None
  }

  /** check_rights' answer and the items it sends. */
  datatype Checked = Checked(granted: bool, report: seq<Line>)

  const ACCESS_ERROR: string := "E: accesss"
  const ACCESS_INFO: string := "I: I couldn't check access rights for an item."

  /** check_rights(path, type): granted exactly when the type has a required
      mode and access(2) allows it. A denial for EACCES or ENOENT is silent;
      any other errno is reported. No code outside the table is ever
      checked, let alone granted. */
  function CheckRights(path: string, t: char, access: (string, Mode) -> AccessResult): (c: Checked)
    ensures c.granted <==> RequiredMode(t).Some? && access(path, RequiredMode(t).value).Accessible?
    ensures c.granted ==> IsFileType(t) || t == IT_DIR
    ensures c.report != [] <==>
              RequiredMode(t).Some? && access(path, RequiredMode(t).value).Denied?
              && access(path, RequiredMode(t).value).errno.OtherErrno?
    ensures c.report != [] ==>
              c.report == [ErrorLine(ACCESS_ERROR, Some(access(path, RequiredMode(t).value).errno.message)),
                           InfoLine(ACCESS_INFO, Some(path))]
  {
    match RequiredMode(t)
    case None => Checked(false, [])
    case Some(mode) =>
      match access(path, mode)
      case Accessible => Checked(true, [])
      case Denied(OtherErrno(msg)) =>
        Checked(false, [ErrorLine(ACCESS_ERROR, Some(msg)), InfoLine(ACCESS_INFO, Some(path))])
      case Denied(_) => Checked(false, [])
  }

  /** check_rights, sending its report to the stream. */
  method SendCheckRights(path: string, t: char, fs: FileSystem, out: Output) returns (granted: bool)
    requires NoNul(path)
    modifies out
    ensures var c := CheckRights(path, t, fs.access);
            granted == c.granted && out.sent == old(out.sent) + c.report
  {
    var mode := RequiredMode(t);
    if mode.None? {
      return false;
    }
    var r := fs.access(path, mode.value);
    if r.Denied? {
      if r.errno.OtherErrno? {
        out.SendError(ACCESS_ERROR, Some(r.errno.message));
        ReportsNoNul();
        out.SendInfo(ACCESS_INFO, Some(path));
      }
      return false;
    }
    granted := true;
  }

  /** The messages of itemtype and check_rights are C strings. */
  lemma ReportsNoNul()
    ensures NoNul(LSTAT_ERROR) && NoNul(LSTAT_INFO) && NoNul(ACCESS_ERROR) && NoNul(ACCESS_INFO)
  {
    NoNulConcat("I: I could", " not get f");
    NoNulConcat("ile status", ".");
    NoNulConcat("I: I could not get f", "ile status.");
    NoNulConcat("I: I could", "n't check ");
    NoNulConcat("access rig", "hts for an");
    NoNulConcat("I: I couldn't check ", "access rights for an");
    NoNulConcat("I: I couldn't check access rights for an", " item.");
  }

  /** Neither an ignored entry nor a synthetic error or info code is ever
      checked, whatever access would say. */
  lemma CheckRightsRefuses(path: string, t: char, access: (string, Mode) -> AccessResult)
    requires t == IT_IGNORE || t == IT_ERROR || t == IT_INFO
    ensures CheckRights(path, t, access) == Checked(false, [])
  {
  }

  // ----- scandir(path, &dirents, entry_select, alphasort) -----

  /** entry_select: an entry is listed unless its name starts with '.'. The
      empty name's first byte is its NUL, so it would be listed. */
  predicate EntrySelect(name: string) {
    name == [] || name[0] != '.'
  }

  /** The entries scandir keeps, in directory order. */
  function Selected(names: seq<FileName>): (r: seq<FileName>)
    ensures |r| <= |names|
    ensures forall x :: x in r <==> x in names && EntrySelect(x)
  {
    if names == [] then []
    else if EntrySelect(names[0]) then [names[0]] + Selected(names[1..])
    else Selected(names[1..])
  }

  /** alphasort compares with strcoll; the server never calls setlocale, so
      it runs in the "C" locale, where strcoll is strcmp: bytewise order, a
      proper prefix first. */
  predicate LexLe(a: string, b: string)
    decreases |a|
  {
    a == [] || (b != [] && (a[0] < b[0] || (a[0] == b[0] && LexLe(a[1..], b[1..]))))
  }

  lemma {:induction false} LexLeTotal(a: string, b: string)
    ensures LexLe(a, b) || LexLe(b, a)
    decreases |a|
  {
    if a != [] && b != [] && a[0] == b[0] {
      LexLeTotal(a[1..], b[1..]);
    }
  }

  lemma {:induction false} LexLeTransitive(a: string, b: string, c: string)
    requires LexLe(a, b) && LexLe(b, c)
    ensures LexLe(a, c)
    decreases |a|
  {
    if a != [] && a[0] == b[0] && b[0] == c[0] {
      LexLeTransitive(a[1..], b[1..], c[1..]);
    }
  }

  lemma {:induction false} LexLeReflexive(a: string)
    ensures LexLe(a, a)
    decreases |a|
  {
    if a != [] {
      LexLeReflexive(a[1..]);
    }
  }

  lemma {:induction false} LexLeAntisymmetric(a: string, b: string)
    requires LexLe(a, b) && LexLe(b, a)
    ensures a == b
    decreases |a|
  {
    if a != [] {
      LexLeAntisymmetric(a[1..], b[1..]);
      assert a == [a[0]] + a[1..] && b == [b[0]] + b[1..];
    }
  }

  predicate Sorted(s: seq<string>) {
    forall i, j | 0 <= i < j < |s| :: LexLe(s[i], s[j])
  }

  function Insert(x: FileName, s: seq<FileName>): seq<FileName>
    decreases |s|
  {
    if s == [] then [x]
    else if LexLe(x, s[0]) then [x] + s
    else [s[0]] + Insert(x, s[1..])
  }

  function SortNames(s: seq<FileName>): seq<FileName>
    decreases |s|
  {
    if s == [] then [] else Insert(s[0], SortNames(s[1..]))
  }

  /** Insert adds exactly its element. */
  lemma {:induction false} InsertMultiset(x: FileName, s: seq<FileName>)
    ensures multiset(Insert(x, s)) == multiset(s) + multiset{x}
    decreases |s|
  {
    if s != [] && !LexLe(x, s[0]) {
      InsertMultiset(x, s[1..]);
      assert s == [s[0]] + s[1..];
    }
  }

  lemma {:induction false} InsertSorted(x: FileName, s: seq<FileName>)
    requires Sorted(s)
    ensures Sorted(Insert(x, s))
    decreases |s|
  {
    if s == [] {
    } else if LexLe(x, s[0]) {
      SortedCons(x, s);
    } else {
      LexLeTotal(x, s[0]);
      var t := s[1..];
      assert Sorted(t) by {
        forall i, j | 0 <= i < j < |t| ensures LexLe(t[i], t[j]) { assert t[i] == s[i + 1] && t[j] == s[j + 1]; }
      }
      InsertSorted(x, t);
      InsertMultiset(x, t);
      var it := Insert(x, t);
      forall k | 0 <= k < |it| ensures LexLe(s[0], it[k]) {
        assert it[k] in multiset(it);
        if it[k] != x {
          assert it[k] in multiset(t);
          var j :| 0 <= j < |t| && t[j] == it[k];
          assert s[j + 1] == t[j];
        }
      }
      SortedCons(s[0], it);
    }
  }

  /** A head no greater than the first element of a sorted sequence keeps
      it sorted. */
  lemma SortedCons(x: string, s: seq<string>)
    requires Sorted(s)
    requires forall k | 0 <= k < |s| :: LexLe(x, s[k]) || (k > 0 && LexLe(x, s[0]))
    ensures Sorted([x] + s)
  {
    var r := [x] + s;
    forall i, j | 0 <= i < j < |r| ensures LexLe(r[i], r[j]) {
      if i == 0 {
        if !LexLe(x, s[j - 1]) { LexLeTransitive(x, s[0], s[j - 1]); }
      } else {
        assert r[i] == s[i - 1] && r[j] == s[j - 1];
      }
    }
  }

  /** The listing order: sorted by strcmp, and a permutation of its input. */
  lemma {:induction false} SortNamesCorrect(s: seq<FileName>)
    ensures Sorted(SortNames(s)) && multiset(SortNames(s)) == multiset(s)
    decreases |s|
  {
    if s != [] {
      SortNamesCorrect(s[1..]);
      InsertSorted(s[0], SortNames(s[1..]));
      InsertMultiset(s[0], SortNames(s[1..]));
      assert s == [s[0]] + s[1..];
    }
  }

  /** Two sorted arrangements of the same names are the same sequence, so
      the listing order does not depend on how scandir sorts. */
  lemma {:induction false} SortedUnique(a: seq<string>, b: seq<string>)
    requires Sorted(a) && Sorted(b) && multiset(a) == multiset(b)
    ensures a == b
    decreases |a|
  {
    if a != [] {
      assert |b| == |a| by { assert |multiset(a)| == |multiset(b)|; }
      SortedSameHead(a, b);
      var a', b' := a[1..], b[1..];
      assert a == [a[0]] + a' && b == [b[0]] + b';
      assert multiset(a') == multiset(b') by {
        assert multiset(a) == multiset{a[0]} + multiset(a');
        assert multiset(b) == multiset{b[0]} + multiset(b');
        assert multiset(a') == multiset(a) - multiset{a[0]};
        assert multiset(b') == multiset(b) - multiset{b[0]};
      }
      SortedTail(a);
      SortedTail(b);
      SortedUnique(a', b');
    }
  }

  lemma SortedTail(s: seq<string>)
    requires Sorted(s) && s != []
    ensures Sorted(s[1..])
  {
    forall p, q | 0 <= p < q < |s[1..]| ensures LexLe(s[1..][p], s[1..][q]) {
      assert s[1..][p] == s[p + 1] && s[1..][q] == s[q + 1];
    }
  }

  /** The head of a sorted sequence is no greater than any of its elements. */
  lemma SortedHeadLeast(s: seq<string>, x: string)
    requires Sorted(s) && x in s
    ensures LexLe(s[0], x)
  {
    var i :| 0 <= i < |s| && s[i] == x;
    if i == 0 { LexLeReflexive(x); }
  }

  lemma SortedSameHead(a: seq<string>, b: seq<string>)
    requires Sorted(a) && Sorted(b) && multiset(a) == multiset(b) && a != [] && b != []
    ensures a[0] == b[0]
  {
    assert a[0] in multiset(b) && b[0] in multiset(a);
    SortedHeadLeast(b, a[0]);
    SortedHeadLeast(a, b[0]);
    LexLeAntisymmetric(a[0], b[0]);
  }

  /** The entries of a listing that write_menu walks through. */
  function ScanDir(names: seq<FileName>): seq<FileName> {
    SortNames(Selected(names))
  }

  /** The listing shows every entry not starting with '.', each as often as
      the directory holds it, sorted by strcmp. */
  lemma ScanDirCorrect(names: seq<FileName>)
    ensures Sorted(ScanDir(names))
    ensures multiset(ScanDir(names)) == multiset(Selected(names))
    ensures forall x :: x in ScanDir(names) <==> x in names && EntrySelect(x)
  {
    SortNamesCorrect(Selected(names));
    forall x ensures x in ScanDir(names) <==> x in Selected(names) {
      assert x in ScanDir(names) <==> x in multiset(ScanDir(names));
      assert x in Selected(names) <==> x in multiset(Selected(names));
    }
  }
}
