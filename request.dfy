/** check_request: the syntax a client's selector must have,
    `^(/|(/[^\.][^/]*)*)$` as a POSIX extended regular expression. Inside a
    POSIX bracket expression a backslash is an ordinary character, so
    `[^\.]` excludes both '.' and '\', and it admits '/'. */
module Request {
  import opened CStrings
  import opened Tools

  /** What the bracket expression `[^\.]` admits. */
  predicate SegmentHead(c: char) {
    c != '.' && c != '\\'
  }

  /** `(/[^\.][^/]*)*`, read one segment at a time. The run `[^/]*` after a
      segment's first two characters cannot stop short of the next '/' (the
      next segment would have to begin there), so the reading is unique. */
  predicate Segments(s: string)
    decreases |s|
  {
    s == [] || (|s| >= 2 && s[0] == '/' && SegmentHead(s[1]) && Segments(s[Span(s, 2, '/')..]))
  }

  /** Whether regexec matches REQUESTREGEX. */
  predicate CheckRequest(request: string) {
    request == "/" || Segments(request)
  }

  /** One segment `/[^\.][^/]*` of the regular expression. */
  ghost predicate IsSegment(w: string) {
    |w| >= 2 && w[0] == '/' && SegmentHead(w[1]) && '/' !in w[2..]
  }

  ghost predicate AllSegments(ws: seq<string>) {
    forall i | 0 <= i < |ws| :: IsSegment(ws[i])
  }

  function Concat(ws: seq<string>): string {
    if ws == [] then [] else ws[0] + Concat(ws[1..])
  }

  /** The language of REQUESTREGEX: "/" or any concatenation of segments. */
  ghost predicate InRegexLanguage(s: string) {
    s == "/" || exists ws :: AllSegments(ws) && Concat(ws) == s
  }

  /** check_request accepts exactly the strings of the regular language. */
  lemma CheckRequestMatchesRegex(s: string)
    ensures CheckRequest(s) <==> InRegexLanguage(s)
  {
    if Segments(s) {
      var ws := Decompose(s);
    }
    if s != "/" && InRegexLanguage(s) {
      var ws :| AllSegments(ws) && Concat(ws) == s;
      Compose(ws);
    }
  }

  /** The unique segmentation check_request's reading finds. */
  lemma {:induction false} Decompose(s: string) returns (ws: seq<string>)
    requires Segments(s)
    ensures AllSegments(ws) && Concat(ws) == s
    decreases |s|
  {
    if s == [] {
      ws := [];
    } else {
      var e := Span(s, 2, '/');
      var rest := Decompose(s[e..]);
      var w := s[..e];
      assert '/' !in w[2..] by {
        forall i | 0 <= i < |w[2..]| ensures w[2..][i] != '/' { assert w[2..][i] == s[2 + i]; }
      }
      ws := [w] + rest;
      assert ws[1..] == rest;
      assert s == w + s[e..];
    }
  }

  /** A concatenation of segments is read back segment by segment. */
  lemma {:induction false} Compose(ws: seq<string>)
    requires AllSegments(ws)
    ensures Segments(Concat(ws))
    ensures ws != [] ==> Concat(ws)[0] == '/'
  {
    if ws != [] {
      var w := ws[0];
      var rest := Concat(ws[1..]);
      assert AllSegments(ws[1..]) by {
        forall i | 0 <= i < |ws[1..]| ensures IsSegment(ws[1..][i]) { assert ws[1..][i] == ws[i + 1]; }
      }
      Compose(ws[1..]);
      var s := w + rest;
      assert IsSegment(w);
      forall i | 2 <= i < |w| ensures s[i] != '/' {
        assert s[i] == w[2..][i - 2];
      }
      if rest != [] {
        assert ws[1..] != [];
        assert s[|w|] == rest[0];
      }
      SpanFrom(s, '/', 2, |w|);
      assert s[|w|..] == rest;
    }
  }

  /** Every accepted request is empty or begins with '/'. */
  lemma AcceptedStartsWithSlash(request: string)
    requires CheckRequest(request)
    ensures request == [] || request[0] == '/'
  {
  }

  /** The empty request, the root and an ordinary path are accepted. */
  lemma AcceptedExamples()
    ensures CheckRequest("") && CheckRequest("/") && CheckRequest("/pub/doc")
  {
    assert Segments("/doc") by { SpanFrom("/doc", '/', 2, 4); }
    assert Segments("/pub/doc") by { SpanFrom("/pub/doc", '/', 2, 4); assert "/pub/doc"[4..] == "/doc"; }
  }

  /** `//..` and `//../etc` pass, since the first character of a segment may
      itself be '/'. */
  lemma TraversalAccepted()
    ensures CheckRequest("//..") && CheckRequest("//../etc")
  {
    assert Segments("/etc") by { SpanFrom("/etc", '/', 2, 4); }
    assert Segments("//..") by { SpanFrom("//..", '/', 2, 4); }
    assert Segments("//../etc") by { SpanFrom("//../etc", '/', 2, 4); assert "//../etc"[4..] == "/etc"; }
  }

  /** A dot or a backslash after a slash, and a relative request, are
      rejected. */
  lemma RejectedExamples()
    ensures !CheckRequest("/../etc/passwd") && !CheckRequest("/.hidden")
    ensures !CheckRequest("pub") && !CheckRequest("/\\x")
  {
  }

  // ----- The traversal the regular expression lets through -----

  /** No component of a selector starts with '.': no '/' is followed by '.'.
      This is what the regular expression is meant to guarantee, to keep
      `..` and hidden files out of reach. */
  predicate NoDotComponent(s: string) {
    forall i | 0 <= i < |s| - 1 :: s[i] == '/' ==> s[i + 1] != '.'
  }

  /** As written, check_request accepts `//../etc`, whose third character
      starts a `..` component; joined onto a document root it names a path
      outside the root. */
  lemma DoubleSlashEscapes()
    ensures CheckRequest("//../etc") && !NoDotComponent("//../etc")
    ensures Join("/srv/gopher", "//../etc") == Some("/srv/gopher//../etc")
  {
    TraversalAccepted();
    assert "//../etc"[1] == '/' && "//../etc"[2] == '.';
    assert Separator("/srv/gopher") == "/";
    assert DropSlash("//../etc") == "/../etc";
    assert "/srv/gopher" + "/" + "/../etc" == "/srv/gopher//../etc";
  }

  /** The corrected first character of a segment: `[^/.\]`, which also
      excludes '/'. */
  predicate FixedSegmentHead(c: char) {
    SegmentHead(c) && c != '/'
  }

  predicate FixedSegments(s: string)
    decreases |s|
  {
    s == [] || (|s| >= 2 && s[0] == '/' && FixedSegmentHead(s[1]) && FixedSegments(s[Span(s, 2, '/')..]))
  }

  /** The corrected request check, `^(/|(/[^/.\][^/]*)*)$`. */
  predicate CheckRequestFixed(request: string) {
    request == "/" || FixedSegments(request)
  }

  /** The check main applies to a request: check_request as written, or,
      when `fixed`, the corrected expression. */
  predicate RequestAccepted(fixed: bool, request: string) {
    if fixed then CheckRequestFixed(request) else CheckRequest(request)
  }

  /** The corrected check keeps every `.`-component out. */
  lemma CheckRequestFixedNoDot(s: string)
    requires CheckRequestFixed(s)
    ensures NoDotComponent(s)
  {
    if s != "/" {
      FixedSegmentsNoDot(s);
    }
  }

  lemma {:induction false} FixedSegmentsNoDot(s: string)
    requires FixedSegments(s)
    ensures NoDotComponent(s) && NoEmptyComponent(s)
    decreases |s|
  {
    if s != [] {
      var e := Span(s, 2, '/');
      var rest := s[e..];
      FixedSegmentsNoDot(rest);
      forall i | 0 <= i < |s| - 1 && s[i] == '/' ensures s[i + 1] != '.' && s[i + 1] != '/' {
        if i >= e {
          assert s[i] == rest[i - e] && s[i + 1] == rest[i - e + 1];
        }
      }
    }
  }

  /** No empty component: no '/' is followed by another. */
  predicate NoEmptyComponent(s: string) {
    forall i | 0 <= i < |s| - 1 :: s[i] == '/' ==> s[i + 1] != '/'
  }

  /** The correction rejects just the requests with an empty component: it
      accepts exactly what check_request accepts and holds no `//`. */
  lemma CheckRequestFixedIff(s: string)
    ensures CheckRequestFixed(s) <==> CheckRequest(s) && NoEmptyComponent(s)
  {
    if s != "/" {
      if FixedSegments(s) {
        FixedSegmentsNoDot(s);
        FixedIsSegments(s);
      }
      if Segments(s) && NoEmptyComponent(s) {
        SegmentsAreFixed(s);
      }
    }
  }

  lemma {:induction false} FixedIsSegments(s: string)
    requires FixedSegments(s)
    ensures Segments(s)
    decreases |s|
  {
    if s != [] {
      FixedIsSegments(s[Span(s, 2, '/')..]);
    }
  }

  lemma {:induction false} SegmentsAreFixed(s: string)
    requires Segments(s) && NoEmptyComponent(s)
    ensures FixedSegments(s)
    decreases |s|
  {
    if s != [] {
      var e := Span(s, 2, '/');
      var rest := s[e..];
      assert NoEmptyComponent(rest) by {
        forall i | 0 <= i < |rest| - 1 && rest[i] == '/' ensures rest[i + 1] != '/' {
          assert rest[i] == s[e + i] && rest[i + 1] == s[e + i + 1];
        }
      }
      SegmentsAreFixed(rest);
    }
  }
}
