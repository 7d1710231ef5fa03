/** Shared vocabulary for the model: the platform limits the server's buffers
    use, an Option type for C's NULL returns, and the string operations the
    C library performs on NUL-terminated strings (strcspn, strlen, splitting
    at a delimiter). A C string is modelled as a `string` without NUL. */
module CStrings {

  /** LINE_MAX, PATH_MAX and NAME_MAX as glibc on Linux defines them. */
  const LINE_MAX: nat := 2048
  const PATH_MAX: nat := 4096
  const NAME_MAX: nat := 255

  datatype Option<T> = None | Some(value: T)

  /** A C string never holds the NUL character: it ends at the first one. */
  predicate NoNul(s: string) {
    forall i | 0 <= i < |s| :: s[i] != '\0'
  }

  /** Gluing C strings together gives a C string. */
  lemma NoNulConcat(a: string, b: string)
    requires NoNul(a) && NoNul(b)
    ensures NoNul(a + b)
  {
    forall i | 0 <= i < |a + b| ensures (a + b)[i] != '\0' {
      if i >= |a| { assert (a + b)[i] == b[i - |a|]; }
    }
  }

  /** `from + strcspn(s + from, c)`: the index of the first `c` at or after
      `from`, or `|s|` when there is none. */
  function Span(s: string, from: nat, c: char): (end: nat)
    requires from <= |s|
    ensures from <= end <= |s|
    ensures forall i | from <= i < end :: s[i] != c
    ensures end < |s| ==> s[end] == c
    decreases |s| - from
  {
    if from == |s| || s[from] == c then from else Span(s, from + 1, c)
  }

  /** What strcspn and a cursor step read from a C string: the run before
      the first `c`... */
  function Token(s: string, c: char): (t: string)
    ensures t <= s && c !in t
  {
    var e := Span(s, 0, c);
    assert forall i | 0 <= i < e :: s[..e][i] == s[i];
    s[..e]
  }

  /** ...and what the cursor points at after stepping over the run and over
      the `c` that ends it, if there is one. */
  function After(s: string, c: char): (r: string)
    ensures |r| <= |s|
    ensures c in s ==> |r| < |s|
  {
    var e := Span(s, 0, c);
    if e < |s| then s[e + 1..] else []
  }

  /** A string holding `c` is its token, `c`, and what comes after. */
  lemma TokenAfter(s: string, c: char)
    requires c in s
    ensures s == Token(s, c) + [c] + After(s, c)
  {
    var e := Span(s, 0, c);
    var j :| 0 <= j < |s| && s[j] == c;
    assert e <= j;
  }

  /** Where the token of a string holding `c` ends: at that `c`. */
  lemma TokenAt(s: string, c: char)
    requires c in s
    ensures |Token(s, c)| < |s| && s[..|Token(s, c)|] == Token(s, c) && s[|Token(s, c)|] == c
  {
    TokenAfter(s, c);
  }

  /** A token free of `c`, then `c`, then the rest. */
  lemma TokenCons(a: string, c: char, r: string)
    requires c !in a
    ensures Token(a + [c] + r, c) == a && After(a + [c] + r, c) == r
  {
    var s := a + [c] + r;
    forall i | 0 <= i < |a| ensures s[i] != c { assert s[i] == a[i]; }
    SpanStopsAt(s, c, |a|);
    assert s[..|a|] == a;
    assert s[|a| + 1..] == r;
  }

  /** A string free of `c` is a single token with nothing after it. */
  lemma TokenLast(d: string, c: char)
    requires c !in d
    ensures Token(d, c) == d && After(d, c) == []
  {
    SpanStopsAt(d, c, |d|);
  }

  /** The fields of `s` between occurrences of `c`: the token before the
      first `c`, then the fields of what follows it. There is always one
      more field than there are delimiters. */
  function Split(s: string, c: char): (fields: seq<string>)
    ensures |fields| >= 1
    decreases |s|
  {
    if c in s then [Token(s, c)] + Split(After(s, c), c) else [s]
  }

  /** The inverse of Split: the fields glued back together with `c`. */
  function Unsplit(fields: seq<string>, c: char): string
    requires |fields| >= 1
  {
    if |fields| == 1 then fields[0] else fields[0] + [c] + Unsplit(fields[1..], c)
  }

  /** Splitting loses nothing: gluing the fields back gives the string. */
  lemma {:induction false} SplitUnsplit(s: string, c: char)
    ensures Unsplit(Split(s, c), c) == s
    decreases |s|
  {
    if c in s {
      var rest := Split(After(s, c), c);
      assert Split(s, c)[1..] == rest;
      SplitUnsplit(After(s, c), c);
      TokenAfter(s, c);
    }
  }

  /** No field holds the delimiter. */
  lemma {:induction false} SplitFree(s: string, c: char, k: nat)
    requires k < |Split(s, c)|
    ensures c !in Split(s, c)[k]
    decreases |s|
  {
    if c in s && k > 0 {
      SplitFree(After(s, c), c, k - 1);
    }
  }

  /** A field free of `c`, then `c`, then the rest. */
  lemma SplitCons(a: string, c: char, r: string)
    requires c !in a
    ensures Split(a + [c] + r, c) == [a] + Split(r, c)
  {
    var s := a + [c] + r;
    assert s[|a|] == c;
    TokenCons(a, c, r);
  }

  /** Field `k`, or the empty string when the string ends before it. */
  function Field(fields: seq<string>, k: nat): string {
    if k < |fields| then fields[k] else ""
  }

  /** The first field of a string is its token; there is only one field
      exactly when `c` does not occur. */
  lemma SplitFirst(s: string, c: char)
    ensures Split(s, c)[0] == Token(s, c)
    ensures |Split(s, c)| == 1 <==> c !in s
  {
    if c !in s {
      TokenLast(s, c);
    }
  }

  /** The fields of a string are its token, then the fields of what comes
      after; field `k + 1` is field `k` of the rest, or empty past the end. */
  lemma SplitToken(s: string, c: char, k: nat)
    ensures Split(s, c)[0] == Token(s, c)
    ensures |Split(s, c)| == 1 <==> c !in s
    ensures c in s ==> Split(s, c) == [Token(s, c)] + Split(After(s, c), c)
    ensures Field(Split(s, c), k + 1) == Field(Split(After(s, c), c), k)
  {
    SplitFirst(s, c);
    if c !in s {
      TokenLast(s, c);
      assert Split([], c) == [[]];
    }
  }

  lemma SpanStopsAt(s: string, c: char, k: nat)
    requires k <= |s|
    requires forall i | 0 <= i < k :: s[i] != c
    requires k < |s| ==> s[k] == c
    ensures Span(s, 0, c) == k
  {
    SpanFrom(s, c, 0, k);
  }

  lemma {:induction false} SpanFrom(s: string, c: char, from: nat, k: nat)
    requires from <= k <= |s|
    requires forall i | from <= i < k :: s[i] != c
    requires k < |s| ==> s[k] == c
    ensures Span(s, from, c) == k
    decreases k - from
  {
    if from < k {
      SpanFrom(s, c, from + 1, k);
    }
  }

  /** strcspn(s + from, c) on a C string: the length of the run before the
      next `c` or the terminating NUL. */
  method Strcspn(s: string, from: nat, c: char) returns (l: nat)
    requires from <= |s|
    ensures from + l == Span(s, from, c)
  {
    l := 0;
    while from + l < |s| && s[from + l] != c
      invariant from + l <= |s|
      invariant forall i | from <= i < from + l :: s[i] != c
    {
      l := l + 1;
    }
    SpanFrom(s, c, from, from + l);
  }

  /** `strlen`: the C string at the start of a buffer, read up to its NUL. */
  method ReadCString(buf: array<char>, ghost n: nat) returns (s: string)
    requires n < buf.Length && buf[n] == '\0'
    requires forall i | 0 <= i < n :: buf[i] != '\0'
    ensures s == buf[..n]
  {
    var k := 0;
    while buf[k] != '\0'
      invariant 0 <= k <= n
      decreases n - k
    {
      k := k + 1;
    }
    s := buf[..k];
  }
}
