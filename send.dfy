/** The response emitter of send.c: every response line is a menu item
    `Type Display TAB Selector TAB Host TAB Port CR LF`, or the last line
    `. CR LF` (the menu grammar in the Appendix of RFC 1436). Error and
    informational lines are synthetic items whose selector, host and port are
    fixed fake values so that a client cannot follow them. */
module Send {
  import opened CStrings
  import opened ItemTypes

  const FAKE_HOST: string := "fake"
  const FAKE_PORT: string := "1"
  const FAKE_SELECTOR: string := "/"

  /** `struct item`. */
  datatype Item = Item(itemType: char, display: string, selector: string, host: string, port: string)

  /** The message and optional detail of a synthetic item. */
  datatype Notice = Notice(text: string, detail: Option<string>)

  /** What send_fake_item can print: a message with a detail, or one short
      enough that strncpy leaves it terminated. */
  predicate Printable(n: Notice) {
    n.detail.Some? || |n.text| < LINE_MAX - 1
  }

  type PrintableNotice = n: Notice | Printable(n) witness Notice("", None)

  /** One line the server writes: an item, a synthetic item that
      send_fake_item builds from a notice, or the end-of-response line. */
  datatype Line = ItemLine(item: Item) | FakeLine(itemType: char, notice: PrintableNotice) | Terminator

  /** What send_item writes: "%c%s\t%s\t%s\t%s\r\n". */
  function FormatItem(it: Item): string {
    [it.itemType] + it.display + "\t" + it.selector + "\t" + it.host + "\t" + it.port + "\r\n"
  }

  function Render(l: Line): string {
    match l
    case ItemLine(it) => FormatItem(it)
    case FakeLine(t, n) => FormatItem(FakeItem(t, n.text, n.detail))
    case Terminator => ".\r\n"
  }

  /** The bytes on the wire for a sequence of lines. */
  function Wire(ls: seq<Line>): string {
    if ls == [] then [] else Render(ls[0]) + Wire(ls[1..])
  }

  /** Writing more lines never changes what was written before. */
  lemma {:induction false} WireAppend(a: seq<Line>, b: seq<Line>)
    ensures Wire(a + b) == Wire(a) + Wire(b)
  {
    if a == [] {
      assert a + b == b;
    } else {
      assert (a + b)[0] == a[0];
      assert (a + b)[1..] == a[1..] + b;
      WireAppend(a[1..], b);
    }
  }

  /** Reads one menu line back, as a client does: the type character, then
      four fields separated by exactly three tabs, then CR LF. */
  function ParseMenuLine(w: string): Option<Item> {
    if |w| < 3 || w[|w| - 2..] != "\r\n" then None
    else
      var body := w[..|w| - 2];
      var r0 := body[1..];
      var r1 := After(r0, '\t');
      var r2 := After(r1, '\t');
      var r3 := After(r2, '\t');
      if '\t' in r0 && '\t' in r1 && '\t' in r2 && '\t' !in r3
      then Some(Item(body[0], Token(r0, '\t'), Token(r1, '\t'), Token(r2, '\t'), r3))
      else None
  }

  /** An item whose display, selector, host and port hold no tab is read
      back unchanged from its wire line. */
  lemma ParseFormatRoundTrip(it: Item)
    requires '\t' !in it.display && '\t' !in it.selector
    requires '\t' !in it.host && '\t' !in it.port
    ensures ParseMenuLine(FormatItem(it)) == Some(it)
  {
    var r2 := it.host + "\t" + it.port;
    var r1 := it.selector + "\t" + r2;
    var r0 := it.display + "\t" + r1;
    TokenCons(it.display, '\t', r1);
    TokenCons(it.selector, '\t', r2);
    TokenCons(it.host, '\t', it.port);
    assert r0[|it.display|] == '\t' && r1[|it.selector|] == '\t' && r2[|it.host|] == '\t';
    FormatItemShape(it);
    assert ([it.itemType] + r0)[1..] == r0;
    ParseMenuLineOf([it.itemType] + r0);
  }

  lemma FormatItemShape(it: Item)
    ensures FormatItem(it)
            == [it.itemType] + (it.display + "\t" + (it.selector + "\t" + (it.host + "\t" + it.port))) + "\r\n"
  {
  }

  /** ParseMenuLine of a line whose body is `body`. */
  lemma ParseMenuLineOf(body: string)
    requires |body| >= 1
    ensures ParseMenuLine(body + "\r\n")
            == var r0 := body[1..];
               var r1 := After(r0, '\t');
               var r2 := After(r1, '\t');
               var r3 := After(r2, '\t');
               if '\t' in r0 && '\t' in r1 && '\t' in r2 && '\t' !in r3
               then Some(Item(body[0], Token(r0, '\t'), Token(r1, '\t'), Token(r2, '\t'), r3))
               else None
  {
    var w := body + "\r\n";
    assert w[..|w| - 2] == body;
    assert w[|w| - 2..] == "\r\n";
  }

  /** The first `n` characters of `s`, as snprintf keeps them. */
  function Truncate(s: string, n: nat): (r: string)
    ensures |r| <= n && r <= s
    ensures |s| <= n ==> r == s
    ensures |s| > n ==> |r| == n
  {
    if |s| <= n then s else s[..n]
  }

  /** The display send_fake_item builds: the message alone without a detail,
      otherwise "message: detail" cut to LINE_MAX-1 characters. Without a
      detail the message must be shorter than LINE_MAX-1, or the display
      strncpy leaves is not terminated. */
  function FakeDisplay(info: string, detail: Option<string>): (display: string)
    requires detail.None? ==> |info| < LINE_MAX - 1
    ensures |display| < LINE_MAX
  {
    match detail
    case None => info
    case Some(d) => Truncate(info + ": " + d, LINE_MAX - 1)
  }

  function FakeItem(t: char, info: string, detail: Option<string>): Item
    requires detail.None? ==> |info| < LINE_MAX - 1
  {
    Item(t, FakeDisplay(info, detail), FAKE_SELECTOR, FAKE_HOST, FAKE_PORT)
  }

  /** The line send_error writes. */
  function ErrorLine(error: string, detail: Option<string>): Line
    requires detail.None? ==> |error| < LINE_MAX - 1
  {
    FakeLine(IT_ERROR, Notice(error, detail))
  }

  /** The line send_info writes. */
  function InfoLine(info: string, detail: Option<string>): Line
    requires detail.None? ==> |info| < LINE_MAX - 1
  {
    FakeLine(IT_INFO, Notice(info, detail))
  }

  /** A synthetic line: an error or info notice. */
  predicate IsFake(l: Line) {
    l.FakeLine? && (l.itemType == IT_ERROR || l.itemType == IT_INFO)
  }

  /** The item a synthetic line is written as carries the code of its kind,
      the fake selector, host and port, and a display that is the message
      alone without a detail, `message: detail` when that fits, and
      otherwise exactly the first LINE_MAX-1 characters of `message: detail`. */
  lemma FakeLines(t: char, info: string, detail: Option<string>)
    requires detail.None? ==> |info| < LINE_MAX - 1
    ensures var it := FakeItem(t, info, detail);
            && it.itemType == t
            && it.selector == FAKE_SELECTOR && it.host == FAKE_HOST && it.port == FAKE_PORT
            && |it.display| < LINE_MAX
            && (detail.None? ==> it.display == info)
            && (detail.Some? && |info| + 2 + |detail.value| < LINE_MAX ==> it.display == info + ": " + detail.value)
            && (detail.Some? && |info| + 2 + |detail.value| >= LINE_MAX ==>
                  |it.display| == LINE_MAX - 1 && it.display <= info + ": " + detail.value)
            && (detail.Some? && |info| < LINE_MAX - 1 ==> info <= it.display)
  {
    if detail.Some? && |info| < LINE_MAX - 1 {
      var full := info + ": " + detail.value;
      assert full[..|info|] == info;
    }
  }

  /** send_error("E: test", "detail") followed by send_eom. */
  lemma ErrorThenEomExample()
    ensures Wire([ErrorLine("E: test", Some("detail")), Terminator])
            == "3E: test: detail\t/\tfake\t1\r\n.\r\n"
  {
    var it := FakeItem(IT_ERROR, "E: test", Some("detail"));
    assert it.display == "E: test: detail";
    assert FormatItem(it) == "3E: test: detail\t/\tfake\t1\r\n";
    assert Wire([Terminator]) == ".\r\n";
  }

  /** send_fake_item's display buffer: strncpy of the message into a
      LINE_MAX buffer, or snprintf of "message: detail" into it. */
  method BuildFakeDisplay(info: string, detail: Option<string>) returns (display: string)
    requires NoNul(info) && (detail.Some? ==> NoNul(detail.value))
    requires detail.None? ==> |info| < LINE_MAX - 1
    ensures display == FakeDisplay(info, detail)
  {
    var buf := new char[LINE_MAX];
    var text := if detail.None? then info else info + ": " + detail.value;
    var i := 0;
    while i < LINE_MAX - 1 && i < |text|
      invariant 0 <= i <= LINE_MAX - 1 && i <= |text|
      invariant forall k | 0 <= k < i :: buf[k] == text[k]
    {
      buf[i] := text[i];
      i := i + 1;
    }
    ghost var n := i;
    if detail.None? {
      // strncpy pads the rest of its LINE_MAX-1 bytes with NUL
      while i < LINE_MAX - 1
        invariant n <= i <= LINE_MAX - 1
        invariant forall k | 0 <= k < n :: buf[k] == text[k]
        invariant forall k | n <= k < i :: buf[k] == '\0'
      {
        buf[i] := '\0';
        i := i + 1;
      }
    } else {
      // snprintf terminates what it wrote
      buf[i] := '\0';
    }
    assert buf[n] == '\0';
    assert forall k | 0 <= k < n :: buf[k] != '\0' by {
      forall k | 0 <= k < n ensures buf[k] != '\0' {
        assert buf[k] == text[k];
        if detail.Some? {
          if k < |info| { assert text[k] == info[k]; }
          else if k >= |info| + 2 { assert text[k] == detail.value[k - |info| - 2]; }
        }
      }
    }
    display := ReadCString(buf, n);
    assert display == text[..n];
  }

  /** The output stream of one response: the lines written to it, in
      order. Its bytes are their rendering, and writing a line only ever
      appends that line's bytes. */
  class Output {
    var sent: seq<Line>

    /** What the stream holds, byte by byte. */
    function Text(): string
      reads this
    {
      Wire(sent)
    }

    constructor ()
      ensures sent == [] && Text() == []
    {
      sent := [];
    }

    /** fprintf or fputs of the bytes of one line. */
    method Put(l: Line, bytes: string)
      requires bytes == Render(l)
      modifies this
      ensures sent == old(sent) + [l]
      ensures Text() == old(Text()) + bytes
    {
      WireAppend(sent, [l]);
      sent := sent + [l];
    }

    /** send_item. */
    method SendItem(it: Item)
      modifies this
      ensures sent == old(sent) + [ItemLine(it)]
    {
      Put(ItemLine(it), FormatItem(it));
    }

    /** send_fake_item: the display built in its buffer, then send_item of
      the synthetic item, whose bytes are those of the fake line. */
    method SendFakeItem(t: char, info: string, detail: Option<string>)
      requires NoNul(info) && (detail.Some? ==> NoNul(detail.value))
      requires detail.None? ==> |info| < LINE_MAX - 1
      modifies this
      ensures sent == old(sent) + [FakeLine(t, Notice(info, detail))]
      ensures Text() == old(Text()) + FormatItem(FakeItem(t, info, detail))
    {
      var display := BuildFakeDisplay(info, detail);
      Put(FakeLine(t, Notice(info, detail)), FormatItem(Item(t, display, FAKE_SELECTOR, FAKE_HOST, FAKE_PORT)));
    }

    /** send_error. */
    method SendError(error: string, detail: Option<string>)
      requires NoNul(error) && (detail.Some? ==> NoNul(detail.value))
      requires detail.None? ==> |error| < LINE_MAX - 1
      modifies this
      ensures sent == old(sent) + [ErrorLine(error, detail)]
    {
      SendFakeItem(IT_ERROR, error, detail);
    }

    /** send_info. */
    method SendInfo(info: string, detail: Option<string>)
      requires NoNul(info) && (detail.Some? ==> NoNul(detail.value))
      requires detail.None? ==> |info| < LINE_MAX - 1
      modifies this
      ensures sent == old(sent) + [InfoLine(info, detail)]
    {
      SendFakeItem(IT_INFO, info, detail);
    }

    /** send_eom. */
    method SendEom()
      modifies this
      ensures sent == old(sent) + [Terminator]
    {
      Put(Terminator, ".\r\n");
    }
  }
}
