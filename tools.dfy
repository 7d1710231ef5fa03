/** tools.c: joining a path (or a selector) with a name in a PATH_MAX
    buffer, and cutting the line ending off a line that fgets read. */
module Tools {
  import opened CStrings
  import opened Send

  /** The slash tool_join_path puts between the parts: only after a
      non-empty first part that does not already end in one. */
  function Separator(part1: string): string {
    if |part1| > 0 && part1[|part1| - 1] != '/' then "/" else ""
  }

  /** The second part with at most one leading slash removed. */
  function DropSlash(part2: string): string {
    if |part2| > 0 && part2[0] == '/' then part2[1..] else part2
  }

  /** tool_join_path: the joined string, or None (NULL) when it does not fit
      a PATH_MAX buffer together with its terminating NUL. */
  function Join(part1: string, part2: string): Option<string> {
    var j := part1 + Separator(part1) + DropSlash(part2);
    if |j| < PATH_MAX then Some(j) else None
  }

  /** tool_join_path stays inside its buffer only when the first part and
      the separator leave room for the NUL it writes after them; for a first
      part of PATH_MAX-1 characters without a trailing slash it writes one
      byte past the end. */
  predicate JoinIsSafe(part1: string) {
    |part1| + |Separator(part1)| < PATH_MAX
  }

  const JOIN_ERROR: string := "E: joinpath: joined too long"

  /** The error item tool_join_path sends when the result is too long. */
  function JoinErrorLine(): Line {
    ErrorLine(JOIN_ERROR, None)
  }

  /** A successful join starts with the first part, then the separator, then
      the second part without its leading slash; it fails exactly when that
      string has PATH_MAX characters or more. */
  lemma JoinShape(part1: string, part2: string)
    ensures Join(part1, part2).Some? <==> |part1| + |Separator(part1)| + |DropSlash(part2)| < PATH_MAX
    ensures Join(part1, part2).Some? ==>
              var r := Join(part1, part2).value;
              && part1 <= r
              && r[..|part1| + |Separator(part1)|] == part1 + Separator(part1)
              && r[|part1| + |Separator(part1)|..] == DropSlash(part2)
  {
    var j := part1 + Separator(part1) + DropSlash(part2);
    assert j[..|part1|] == part1;
    assert j[..|part1| + |Separator(part1)|] == part1 + Separator(part1);
  }

  /** Joining onto the empty string only drops the leading slash. */
  lemma JoinEmptyBase(part2: string)
    requires |DropSlash(part2)| < PATH_MAX
    ensures Join("", part2) == Some(DropSlash(part2))
  {
    assert "" + "" + DropSlash(part2) == DropSlash(part2);
  }

  /** Joining is associative for plain names: with slash-free, non-empty
      `b` and `c`, joining `a` with `b` and then `c` gives what joining `a`
      with the already joined `b/c` gives. */
  lemma JoinAssociative(a: string, b: string, c: string)
    requires b != [] && c != [] && '/' !in b && '/' !in c
    requires Join(a, b).Some? && Join(b, c).Some?
    ensures Join(Join(a, b).value, c) == Join(a, Join(b, c).value)
  {
    assert b[0] in b && b[|b| - 1] in b && c[0] in c;
    var ab := a + Separator(a) + b;
    var bc := b + "/" + c;
    assert Separator(ab) == "/" by { assert ab[|ab| - 1] == b[|b| - 1]; }
    assert DropSlash(bc) == bc by { assert bc[0] == b[0]; }
    assert DropSlash(c) == c && DropSlash(b) == b && Separator(b) == "/";
    var j := ab + "/" + c;
    assert j == a + Separator(a) + bc;
    JoinOf(ab, c, j);
    JoinOf(a, bc, j);
  }

  lemma JoinOf(part1: string, part2: string, j: string)
    requires j == part1 + Separator(part1) + DropSlash(part2)
    ensures Join(part1, part2) == if |j| < PATH_MAX then Some(j) else None
  {
  }

  /** The parts of a request and of a map line come from LINE_MAX buffers;
      joining two of them always fits and never overruns. */
  lemma JoinShortParts(part1: string, part2: string)
    requires |part1| < LINE_MAX && |part2| < LINE_MAX
    ensures JoinIsSafe(part1) && Join(part1, part2).Some?
  {
  }

  /** The join of two C strings is a C string. */
  lemma JoinNoNul(part1: string, part2: string)
    requires NoNul(part1) && NoNul(part2) && Join(part1, part2).Some?
    ensures NoNul(Join(part1, part2).value)
  {
    var d := DropSlash(part2);
    var j := part1 + Separator(part1) + d;
    forall i | 0 <= i < |j| ensures j[i] != '\0' {
      if i < |part1| { assert j[i] == part1[i]; }
      else if i >= |part1| + |Separator(part1)| {
        var k := i - |part1| - |Separator(part1)|;
        assert j[i] == d[k];
        if |part2| > 0 && part2[0] == '/' { assert d[k] == part2[k + 1]; }
      }
    }
  }

  /** The byte at index `i` of a buffer holding the C string `s` followed by
      NUL padding. */
  function At(s: string, i: nat): char {
    if i < |s| then s[i] else '\0'
  }

  /** strncpy(dst + at, src, count): the first `count` bytes of `src`,
      padded with NUL up to `count` bytes; nothing outside them changes. */
  method Strncpy(dst: array<char>, at: nat, src: string, count: nat)
    requires at + count <= dst.Length
    modifies dst
    ensures forall i | 0 <= i < dst.Length ::
              dst[i] == if at <= i < at + count then At(src, i - at) else old(dst[i])
  {
    var m := 0;
    while m < count && m < |src|
      invariant 0 <= m <= count && m <= |src|
      invariant forall i | 0 <= i < dst.Length ::
                  dst[i] == if at <= i < at + m then At(src, i - at) else old(dst[i])
    {
      dst[at + m] := src[m];
      m := m + 1;
    }
    while m < count
      invariant 0 <= m <= count
      invariant forall i | 0 <= i < dst.Length ::
                  dst[i] == if at <= i < at + m then At(src, i - at) else old(dst[i])
    {
      dst[at + m] := '\0';
      m := m + 1;
    }
  }

  /** A buffer holding two strings one after the other. */
  lemma AtConcat(x: string, y: string, i: nat)
    ensures At(x + y, i) == if i < |x| then x[i] else At(y, i - |x|)
  {
  }

  /** The joined string holds no NUL, whether or not it fits. */
  lemma JoinedNoNul(part1: string, part2: string)
    requires NoNul(part1) && NoNul(part2)
    ensures NoNul(part1 + Separator(part1) + DropSlash(part2))
  {
    var d := DropSlash(part2);
    assert NoNul(d) by {
      forall i | 0 <= i < |d| ensures d[i] != '\0' {
        if |part2| > 0 && part2[0] == '/' { assert d[i] == part2[i + 1]; }
      }
    }
    NoNulConcat(part1, Separator(part1));
    NoNulConcat(part1 + Separator(part1), d);
  }

  /** tool_join_path's buffer work without its error report: stpncpy of the
      first part into a PATH_MAX buffer, a slash if needed, strncpy of the
      second part into the rest, then the test of the buffer's last byte. */
  method JoinBuffer(part1: string, part2: string) returns (joined: Option<string>)
    requires NoNul(part1) && NoNul(part2)
    requires JoinIsSafe(part1)
    ensures joined == Join(part1, part2)
  {
    var buf := new char[PATH_MAX];
    // stpncpy(joined, part1, PATH_MAX) returns a pointer to the first NUL
    Strncpy(buf, 0, part1, PATH_MAX);
    var pj := |part1|;
    ghost var head := part1 + Separator(part1);
    if pj > 0 && buf[pj - 1] != '/' {
      buf[pj] := '/';
      pj := pj + 1;
      buf[pj] := '\0';
      forall i | 0 <= i < PATH_MAX ensures buf[i] == At(head, i) { AtConcat(part1, "/", i); }
    } else {
      assert head == part1;
    }
    assert pj == |head|;
    // strncpy(pj, p2, rl), p2 past one leading slash of part2
    var rl := PATH_MAX - pj;
    var p2 := if |part2| > 0 && part2[0] == '/' then part2[1..] else part2;
    Strncpy(buf, pj, p2, rl);
    ghost var full := head + p2;
    forall i | 0 <= i < PATH_MAX ensures buf[i] == At(full, i) { AtConcat(head, p2, i); }
    JoinedNoNul(part1, part2);
    if buf[PATH_MAX - 1] != '\0' {
      return None;
    }
    assert |full| < PATH_MAX;
    var s := ReadCString(buf, |full|);
    assert s == full;
    joined := Some(s);
  }

  /** tool_join_path: the join, with the error item it sends when the
      result does not fit. */
  method JoinPath(part1: string, part2: string, out: Output) returns (joined: Option<string>)
    requires NoNul(part1) && NoNul(part2)
    requires JoinIsSafe(part1)
    modifies out
    ensures joined == Join(part1, part2)
    ensures joined.Some? ==> out.sent == old(out.sent)
    ensures joined.None? ==> out.sent == old(out.sent) + [JoinErrorLine()]
  {
    joined := JoinBuffer(part1, part2);
    if joined.None? {
      out.SendError(JOIN_ERROR, None);
    }
  }

  /** tool_strip_crlf: the line cut at its first newline, together with one
      carriage return right before it; a line without a newline is kept. */
  function Stripped(line: string): string {
    var p := Span(line, 0, '\n');
    if p == |line| then line
    else if p > 0 && line[p - 1] == '\r' then line[..p - 1]
    else line[..p]
  }

  /** The stripped line is a prefix of the line, holds no newline and is
      unchanged by stripping again; a line without a newline is unchanged,
      so a lone carriage return at its end is kept. */
  lemma StrippedProperties(line: string)
    ensures Stripped(line) <= line
    ensures '\n' !in Stripped(line)
    ensures Stripped(Stripped(line)) == Stripped(line)
    ensures '\n' !in line ==> Stripped(line) == line
  {
    var p := Span(line, 0, '\n');
    var r := Stripped(line);
    assert |r| <= p;
    assert forall i | 0 <= i < |r| :: r[i] == line[i];
    assert '\n' !in r by {
      forall i | 0 <= i < |r| ensures r[i] != '\n' { assert r[i] == line[i]; }
    }
    if '\n' !in line {
      SpanStopsAt(line, '\n', |line|);
    }
    SpanStopsAt(r, '\n', |r|);
  }

  /** A line ending in CR LF or LF loses exactly that ending, whatever
      follows the first newline. */
  lemma StrippedLineEnding(text: string, rest: string)
    requires '\n' !in text
    ensures Stripped(text + "\n" + rest)
            == if |text| > 0 && text[|text| - 1] == '\r' then text[..|text| - 1] else text
  {
    var line := text + "\n" + rest;
    SpanStopsAt(line, '\n', |text|);
    assert line[..|text|] == text;
  }

  /** Stripping keeps a C string a C string, and never makes a line longer. */
  lemma StrippedNoNul(line: string)
    requires NoNul(line)
    ensures NoNul(Stripped(line)) && |Stripped(line)| <= |line|
  {
    StrippedProperties(line);
    var r := Stripped(line);
    forall i | 0 <= i < |r| ensures r[i] != '\0' { assert r[i] == line[i]; }
  }

  /** tool_strip_crlf on a buffer holding a C string of length `n`: strchr
      for the newline, one step back over a carriage return, and a NUL
      written there. At most that one byte changes. */
  method StripCrlf(line: array<char>, ghost n: nat)
    requires n < line.Length && line[n] == '\0'
    requires forall i | 0 <= i < n :: line[i] != '\0'
    modifies line
    ensures |Stripped(old(line[..n]))| <= n
    ensures line[..|Stripped(old(line[..n]))|] == Stripped(old(line[..n]))
    ensures line[|Stripped(old(line[..n]))|] == '\0'
    ensures forall i | 0 <= i < line.Length && i != |Stripped(old(line[..n]))| :: line[i] == old(line[i])
  {
    ghost var s := line[..n];
    // strchr(line, '\n')
    var p := 0;
    while line[p] != '\0' && line[p] != '\n'
      invariant 0 <= p <= n
      invariant forall i | 0 <= i < p :: s[i] != '\n'
      decreases n - p
    {
      p := p + 1;
    }
    if line[p] == '\n' {
      assert p < n;
      SpanStopsAt(s, '\n', p);
      if p > 0 && line[p - 1] == '\r' {
        p := p - 1;
      }
      line[p] := '\0';
    } else {
      assert p == n;
      SpanStopsAt(s, '\n', n);
    }
    assert |Stripped(s)| == p;
  }
}
