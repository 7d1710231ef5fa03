/** gophermap.c: one directive line of a map file, `Type Display TAB
    Selector TAB Host TAB Port`, read into an item. Host and port may be left
    out, empty or `+` to announce the server's own; a selector that is not
    absolute is taken relative to the directory the map describes. */
module Gophermap {
  import opened CStrings
  import opened Send
  import opened Tools

  datatype Directive = Malformed | Parsed(item: Item)

  const MALFORMED_ERROR: string := "E: Malformed line"

  /** The error item gophermap_parse_item sends for a line it rejects. */
  function MalformedLine(line: string): Line {
    ErrorLine(MALFORMED_ERROR, Some(line))
  }

  /** tolower in the "C" locale. */
  function Lower(c: char): char {
    if 'A' <= c <= 'Z' then (c as int + 32) as char else c
  }

  /** strncasecmp(p, "GET ", 4) == 0: the first four characters are `GET `
      in any case; a shorter string ends in its NUL, which matches none. */
  predicate StartsWithGet(p: string) {
    |p| >= 4 && Lower(p[0]) == 'g' && Lower(p[1]) == 'e' && Lower(p[2]) == 't' && Lower(p[3]) == ' '
  }

  /** A selector field is relative unless it is empty, starts with '/', or
      is an HTTP-style `GET ` selector. */
  predicate IsRelative(field: string) {
    field != [] && field[0] != '/' && !StartsWithGet(field)
  }

  /** The item's selector: a relative field joined onto the selector of the
      directory being served, any other field as it stands. */
  function Resolve(selector: string, field: string): string
    requires |selector| < LINE_MAX && |field| < LINE_MAX
  {
    if IsRelative(field) then Join(selector, field).value else field
  }

  /** The host or port: the configured one for an empty field or `+`. */
  function Defaulted(field: string, default: string): string {
    if field == "" || field == "+" then default else field
  }

  /** gophermap_parse_item, cursor step by cursor step: the type is the
      first character (a tab there is an error), the display the non-empty
      run after it, which a tab must end; then the selector, host and port
      are the runs after one tab each, empty where the line has ended, and
      anything after the port is ignored. */
  function ParseDirective(selector: string, line: string, host: string, port: string): Directive
    requires line != []
    requires |selector| < LINE_MAX && |line| < LINE_MAX
  {
    var rest := line[1..];
    var display := Token(rest, '\t');
    if line[0] == '\t' || display == [] || '\t' !in rest then Malformed
    else
      var atSelector := After(rest, '\t');
      var atHost := After(atSelector, '\t');
      var atPort := After(atHost, '\t');
      Parsed(Item(line[0], display, Resolve(selector, Token(atSelector, '\t')),
                  Defaulted(Token(atHost, '\t'), host), Defaulted(Token(atPort, '\t'), port)))
  }

  /** Read as fields: a line is rejected when it starts with a tab, when its
      first field after the type is empty or when it has no second field. */
  lemma MalformedFields(selector: string, line: string, host: string, port: string)
    requires line != []
    requires |selector| < LINE_MAX && |line| < LINE_MAX
    ensures var f := Split(line[1..], '\t');
            ParseDirective(selector, line, host, port).Malformed? <==> line[0] == '\t' || f[0] == [] || |f| == 1
  {
    SplitToken(line[1..], '\t', 0);
  }

  /** Otherwise the item holds the first four fields, the type character
      before them, and the defaults for a missing or empty host and port. */
  lemma ParsedFields(selector: string, line: string, host: string, port: string)
    requires line != []
    requires |selector| < LINE_MAX && |line| < LINE_MAX
    requires ParseDirective(selector, line, host, port).Parsed?
    ensures var f := Split(line[1..], '\t');
            && |f| >= 2 && |f[1]| < LINE_MAX
            && ParseDirective(selector, line, host, port).item
               == Item(line[0], f[0], Resolve(selector, f[1]),
                       Defaulted(Field(f, 2), host), Defaulted(Field(f, 3), port))
  {
    var rest := line[1..];
    var f := Split(rest, '\t');
    var s1 := After(rest, '\t');
    var s2 := After(s1, '\t');
    var s3 := After(s2, '\t');
    SplitToken(rest, '\t', 0);
    assert f == [Token(rest, '\t')] + Split(s1, '\t');
    SplitToken(s1, '\t', 0);
    assert f[1] == Token(s1, '\t');
    SplitToken(s1, '\t', 1);
    SplitToken(s2, '\t', 0);
    assert Field(f, 2) == Token(s2, '\t');
    SplitToken(s2, '\t', 1);
    SplitToken(s1, '\t', 1);
    assert Field(f, 3) == Field(Split(s1, '\t'), 2) == Field(Split(s2, '\t'), 1) == Token(s3, '\t') by {
      SplitToken(s1, '\t', 1);
      SplitToken(s2, '\t', 0);
      SplitToken(s3, '\t', 0);
    }
  }

  /** A line is rejected exactly when it starts with a tab, when a tab
      follows its type character at once (an empty display), or when no tab
      follows the display. */
  lemma MalformedIff(selector: string, line: string, host: string, port: string)
    requires line != []
    requires |selector| < LINE_MAX && |line| < LINE_MAX
    ensures ParseDirective(selector, line, host, port).Malformed? <==>
              line[0] == '\t' || '\t' !in line[1..] || line[1] == '\t'
  {
    var rest := line[1..];
    if rest != [] {
      assert rest[0] == line[1];
      assert Token(rest, '\t') == [] <==> rest[0] == '\t';
    }
  }

  /** A parsed item takes its type from the first character and its display
      from the run up to the first tab after it. */
  lemma ParsedTypeAndDisplay(selector: string, line: string, host: string, port: string)
    requires line != []
    requires |selector| < LINE_MAX && |line| < LINE_MAX
    requires ParseDirective(selector, line, host, port).Parsed?
    ensures var it := ParseDirective(selector, line, host, port).item;
            && it.itemType == line[0] && it.itemType != '\t'
            && it.display != [] && '\t' !in it.display
            && |it.display| + 1 < |line|
            && line[1..|it.display| + 1] == it.display && line[|it.display| + 1] == '\t'
  {
    ParsedHead(selector, line, host, port);
    var rest := line[1..];
    TokenAt(rest, '\t');
    var display := Token(rest, '\t');
    assert line[1..|display| + 1] == rest[..|display|];
    assert line[|display| + 1] == rest[|display|];
  }

  lemma ParsedHead(selector: string, line: string, host: string, port: string)
    requires line != []
    requires |selector| < LINE_MAX && |line| < LINE_MAX
    requires ParseDirective(selector, line, host, port).Parsed?
    ensures var it := ParseDirective(selector, line, host, port).item;
            && it.itemType == line[0] && line[0] != '\t'
            && it.display == Token(line[1..], '\t') && it.display != [] && '\t' in line[1..]
  {
  }

  /** A relative selector is appended to the directory's selector with one
      slash between them. */
  lemma ResolveRelative(selector: string, field: string)
    requires |selector| < LINE_MAX && |field| < LINE_MAX
    requires IsRelative(field)
    ensures Resolve(selector, field) == selector + Separator(selector) + field
    ensures selector <= Resolve(selector, field)
  {
    var r := selector + Separator(selector) + field;
    assert r[..|selector|] == selector;
  }

  /** A line whose host and port fields are left out announces the
      configured host and port. */
  lemma ParseDefaults(selector: string, t: char, display: string, sel: string, host: string, port: string)
    requires t != '\t' && display != [] && '\t' !in display && '\t' !in sel
    requires |selector| < LINE_MAX && 2 + |display| + |sel| < LINE_MAX
    ensures ParseDirective(selector, [t] + (display + "\t" + sel), host, port)
            == Parsed(Item(t, display, Resolve(selector, sel), host, port))
  {
    var line := [t] + (display + "\t" + sel);
    assert line[1..] == display + "\t" + sel;
    TokenCons(display, '\t', sel);
    TokenLast(sel, '\t');
    TokenLast([], '\t');
  }

  /** A line of four tab-free fields after its type character is read
      field by field: `+` or an empty host or port becomes the configured
      one, a relative selector is joined onto the directory's. */
  lemma ParseFour(selector: string, t: char, display: string, sel: string, h: string, p: string,
                  host: string, port: string)
    requires t != '\t' && display != []
    requires '\t' !in display && '\t' !in sel && '\t' !in h && '\t' !in p
    requires |selector| < LINE_MAX
    requires 4 + |display| + |sel| + |h| + |p| < LINE_MAX
    ensures ParseDirective(selector, [t] + (display + "\t" + (sel + "\t" + (h + "\t" + p))), host, port)
            == Parsed(Item(t, display, Resolve(selector, sel), Defaulted(h, host), Defaulted(p, port)))
  {
    var r2 := h + "\t" + p;
    var r1 := sel + "\t" + r2;
    var rest := display + "\t" + r1;
    var line := [t] + rest;
    assert line[1..] == rest;
    TokenCons(display, '\t', r1);
    TokenCons(sel, '\t', r2);
    TokenCons(h, '\t', p);
    TokenLast(p, '\t');
  }

  /** A map directive written like the menu line of an absolute item, with
      its own host and port, is read back as that same item: the menu line
      the server would send for it is the directive followed by CR LF. */
  lemma DirectiveRoundTrip(selector: string, it: Item, host: string, port: string)
    requires it.itemType != '\t' && it.display != []
    requires '\t' !in it.display && '\t' !in it.selector && '\t' !in it.host && '\t' !in it.port
    requires !IsRelative(it.selector)
    requires it.host != "" && it.host != "+" && it.port != "" && it.port != "+"
    requires |selector| < LINE_MAX
    requires 4 + |it.display| + |it.selector| + |it.host| + |it.port| < LINE_MAX
    ensures var line := [it.itemType] + (it.display + "\t" + (it.selector + "\t" + (it.host + "\t" + it.port)));
            && FormatItem(it) == line + "\r\n"
            && ParseDirective(selector, line, host, port) == Parsed(it)
  {
    FormatItemShape(it);
    ParseFour(selector, it.itemType, it.display, it.selector, it.host, it.port, host, port);
  }

  /** The selector `GET /` is kept as it stands, and only a lone `+` is the
      default marker: `++` and `+x` are kept too. */
  lemma ParseKeepsGetAndPlus(selector: string, host: string, port: string)
    requires |selector| < LINE_MAX
    ensures ParseDirective(selector, ['1'] + ("Web" + "\t" + ("GET /" + "\t" + ("++" + "\t" + "+x"))), host, port)
            == Parsed(Item('1', "Web", "GET /", "++", "+x"))
  {
    assert StartsWithGet("GET /");
    ParseFour(selector, '1', "Web", "GET /", "++", "+x", host, port);
  }

  /** `0Display TAB foo TAB + TAB +` in the map of `/x` is the text file
      `/x/foo` on the configured host and port. */
  lemma RelativeExample(host: string, port: string)
    ensures ParseDirective("/x", ['0'] + ("Display" + "\t" + ("foo" + "\t" + ("+" + "\t" + "+"))), host, port)
            == Parsed(Item('0', "Display", "/x/foo", host, port))
  {
    assert Resolve("/x", "foo") == "/x/foo" by {
      assert !StartsWithGet("foo");
      JoinOf("/x", "foo", "/x/foo");
    }
    ParseFour("/x", '0', "Display", "foo", "+", "+", host, port);
  }

  /** An absolute selector with its own host and port is kept as written. */
  lemma AbsoluteExample(host: string, port: string)
    ensures ParseDirective("/x", ['0'] + ("Display" + "\t" + ("/abs/path" + "\t" + ("host" + "\t" + "70"))), host, port)
            == Parsed(Item('0', "Display", "/abs/path", "host", "70"))
  {
    ParseFour("/x", '0', "Display", "/abs/path", "host", "70", host, port);
    assert !IsRelative("/abs/path");
  }

  /** strncasecmp looks at the rest of the line, not at the field alone; a
      tab ends the field, and a tab matches no character of `GET `, so the
      answer is the field's. */
  lemma StartsWithGetField(rest: string, k: nat)
    requires k <= |rest| && (k < |rest| ==> rest[k] == '\t')
    ensures StartsWithGet(rest) <==> StartsWithGet(rest[..k])
  {
  }

  lemma MalformedErrorNoNul()
    ensures NoNul(MALFORMED_ERROR)
  {
  }

  /** The rest of a C string is a C string. */
  lemma NoNulSuffix(s: string, k: nat)
    requires NoNul(s) && k <= |s|
    ensures NoNul(s[k..])
  {
    forall i | 0 <= i < |s[k..]| ensures s[k..][i] != '\0' { assert s[k..][i] == s[k + i]; }
  }

  /** gophermap_parse_item: a cursor walked over the line with strcspn, each
      field copied out, a relative selector joined with tool_join_path, and
      an error item sent for a line it rejects. The cursor `p` is modelled as
      the rest of the line it points at. */
  method ParseItem(selector: string, line: string, host: string, port: string, out: Output)
    returns (ok: bool, item: Item)
    requires NoNul(selector) && NoNul(line) && line != []
    requires |selector| < LINE_MAX && |line| < LINE_MAX
    modifies out
    ensures var d := ParseDirective(selector, line, host, port);
            && ok == d.Parsed? && (ok ==> item == d.item)
            && out.sent == old(out.sent) + (if ok then [] else [MalformedLine(line)])
  {
    item := Item('\0', "", "", "", "");
    MalformedErrorNoNul();
    var p := line;
    if p[0] == '\t' {
      out.SendError(MALFORMED_ERROR, Some(line));
      return false, item;
    }
    var t := p[0];
    ghost var rest := p[1..];
    NoNulSuffix(line, 1);
    var display, found;
    display, found, p := ParseDisplay(p[1..]);
    if display == [] || !found {
      out.SendError(MALFORMED_ERROR, Some(line));
      return false, item;
    }
    var sel, h, pt := ParseFields(selector, p, host, port, out);
    item := Item(t, display, sel, h, pt);
    ok := true;
  }

  /** The display string under the cursor, up to the first tab; the cursor
      then stands past that tab, and `found` says whether there was one. */
  method ParseDisplay(p: string) returns (display: string, found: bool, next: string)
    requires NoNul(p)
    ensures display == Token(p, '\t') && next == After(p, '\t')
    ensures found <==> '\t' in p
    ensures NoNul(next)
  {
    var l := Strcspn(p, 0, '\t');
    display := p[..l];
    next := p[l..];
    found := next != [];
    if found {
      next := next[1..];
      NoNulSuffix(p, l + 1);
      assert next == p[l + 1..];
    } else {
      assert '\t' !in p;
    }
  }

  /** The selector, host and port fields from the cursor on. */
  method ParseFields(selector: string, p: string, host: string, port: string, out: Output)
    returns (sel: string, h: string, pt: string)
    requires NoNul(selector) && NoNul(p)
    requires |selector| < LINE_MAX && |p| < LINE_MAX
    modifies out
    ensures out.sent == old(out.sent)
    ensures && sel == Resolve(selector, Token(p, '\t'))
            && h == Defaulted(Token(After(p, '\t'), '\t'), host)
            && pt == Defaulted(Token(After(After(p, '\t'), '\t'), '\t'), port)
  {
    var q := p;
    sel, q := ParseSelector(selector, q, out);
    h, q := ReadDefaulted(q, host);
    pt, q := ReadDefaulted(q, port);
  }

  /** A host or port field under the cursor, with the configured default
      for an empty field or `+`; the cursor then stands past it. */
  method ReadDefaulted(p: string, default: string) returns (v: string, next: string)
    ensures v == Defaulted(Token(p, '\t'), default)
    ensures next == After(p, '\t')
  {
    var l := Strcspn(p, 0, '\t');
    var useDefault := l == 0 || (l == 1 && p[0] == '+');
    assert useDefault <==> p[..l] == "" || p[..l] == "+";
    if useDefault {
      v := default;
    } else {
      v := p[..l];
    }
    next := p[l..];
    if next != [] {
      next := next[1..];
    }
  }

  /** The selector field under the cursor, resolved as gophermap_parse_item
      does; the cursor then stands past it. */
  method ParseSelector(selector: string, p: string, out: Output) returns (sel: string, next: string)
    requires NoNul(selector) && NoNul(p)
    requires |selector| < LINE_MAX && |p| < LINE_MAX
    modifies out
    ensures out.sent == old(out.sent)
    ensures sel == Resolve(selector, Token(p, '\t'))
    ensures next == After(p, '\t')
  {
    var l := Strcspn(p, 0, '\t');
    var field := p[..l];
    StartsWithGetField(p, l);
    var relative := l > 0 && p[0] != '/' && !StartsWithGet(p);
    assert relative == IsRelative(field);
    if relative {
      assert NoNul(field) by {
        forall i | 0 <= i < |field| ensures field[i] != '\0' { assert field[i] == p[i]; }
      }
      var joined := JoinPath(selector, field, out);
      sel := joined.value;
    } else {
      sel := field;
    }
    next := p[l..];
    if next != [] {
      next := next[1..];
    }
  }
}
