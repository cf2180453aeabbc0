/** Percent-encoding of section 2.1 of RFC 3986.

    `Unquote` is the decoder applied to the image URL's path. A `%` followed
    by two hexadecimal digits (either case) stands for the octet they spell;
    any other `%` is kept as it is, and so is every other character. The
    decoded octet becomes the character with that code, which is what
    Python's `unquote` does with `encoding='latin-1'`.

    `Quote` is the matching encoder (Python's `quote` with its default safe
    character `/`): it keeps the unreserved characters of section 2.3 of
    RFC 3986 and `/`, and writes every other octet as `%` plus two upper-case
    hexadecimal digits. */
module PercentCoding {

  predicate IsHexDigit(c: char) {
    '0' <= c <= '9' || 'A' <= c <= 'F' || 'a' <= c <= 'f'
  }

  function HexValue(c: char): (v: int)
    requires IsHexDigit(c)
    ensures 0 <= v < 16
  {
    if '0' <= c <= '9' then c as int - '0' as int
    else if 'A' <= c <= 'F' then c as int - 'A' as int + 10
    else c as int - 'a' as int + 10
  }

  /** Upper-case hexadecimal digit, as the encoder writes it. */
  function HexDigit(v: int): (c: char)
    requires 0 <= v < 16
    ensures IsHexDigit(c) && HexValue(c) == v
    ensures IsUnreserved(c)
  {
    if v < 10 then ('0' as int + v) as char else ('A' as int + v - 10) as char
  }

  /** True when `s` starts with a well-formed escape `%XY`. */
  predicate StartsWithEscape(s: string) {
    |s| >= 3 && s[0] == '%' && IsHexDigit(s[1]) && IsHexDigit(s[2])
  }

  function Unquote(s: string): (r: string)
    ensures |r| <= |s|
    decreases |s|
  {
    if |s| == 0 then []
    else if StartsWithEscape(s) then
      [(16 * HexValue(s[1]) + HexValue(s[2])) as char] + Unquote(s[3..])
    else
      [s[0]] + Unquote(s[1..])
  }

  /** Unreserved characters, section 2.3 of RFC 3986. */
  predicate IsUnreserved(c: char) {
    || 'A' <= c <= 'Z' || 'a' <= c <= 'z' || '0' <= c <= '9'
    || c == '-' || c == '.' || c == '_' || c == '~'
  }

  /** Characters an octet string can hold: codes below 256. */
  predicate IsOctets(s: string) {
    forall i :: 0 <= i < |s| ==> s[i] as int < 256
  }

  /** A character the encoder may write: unreserved, `/`, or the `%` of an
      escape. */
  predicate IsUrlSafe(c: char) {
    IsUnreserved(c) || c == '/' || c == '%'
  }

  function QuoteChar(c: char): (r: string)
    requires c as int < 256
    ensures forall i :: 0 <= i < |r| ==> IsUrlSafe(r[i])
    ensures |r| == 1 <==> IsUnreserved(c) || c == '/'
  {
    if IsUnreserved(c) || c == '/' then [c]
    else ['%', HexDigit(c as int / 16), HexDigit(c as int % 16)]
  }

  function Quote(s: string): (r: string)
    requires IsOctets(s)
    ensures forall i :: 0 <= i < |r| ==> IsUrlSafe(r[i])
    ensures |r| >= |s|
    decreases |s|
  {
    if |s| == 0 then [] else QuoteChar(s[0]) + Quote(s[1..])
  }

  /** Decoding one encoded character, then the rest. */
  lemma UnquoteQuoteChar(c: char, rest: string)
    requires c as int < 256
    ensures Unquote(QuoteChar(c) + rest) == [c] + Unquote(rest)
  {
    var q := QuoteChar(c) + rest;
    if IsUnreserved(c) || c == '/' {
      assert q[1..] == rest;
    } else {
      assert StartsWithEscape(q);
      assert q[3..] == rest;
      assert 16 * (c as int / 16) + c as int % 16 == c as int;
    }
  }

  /** Decoding undoes encoding. */
  lemma {:induction false} UnquoteQuote(s: string)
    requires IsOctets(s)
    ensures Unquote(Quote(s)) == s
    decreases |s|
  {
    if |s| > 0 {
      UnquoteQuoteChar(s[0], Quote(s[1..]));
      UnquoteQuote(s[1..]);
      assert [s[0]] + s[1..] == s;
    }
  }

  /** A prefix without `%` decodes to itself, whatever follows it. */
  lemma {:induction false} UnquotePlainPrefix(a: string, b: string)
    requires '%' !in a
    ensures Unquote(a + b) == a + Unquote(b)
    decreases |a|
  {
    if |a| == 0 {
      assert a + b == b;
    } else {
      PlainFirst(a, b);
      UnquotePlainPrefix(a[1..], b);
      AppendAssoc([a[0]], a[1..], Unquote(b));
      assert [a[0]] + a[1..] == a;
    }
  }

  /** One step of `UnquotePlainPrefix`: the first character is not `%`. */
  lemma PlainFirst(a: string, b: string)
    requires |a| > 0 && '%' !in a
    ensures Unquote(a + b) == [a[0]] + Unquote(a[1..] + b)
    ensures '%' !in a[1..]
  {
    var s := a + b;
    assert s[0] == a[0] && a[0] in a;
    assert s[1..] == a[1..] + b;
    assert forall i :: 0 <= i < |a[1..]| ==> a[1..][i] == a[i + 1];
  }

  /** Text without `%` is left as it is. */
  lemma UnquoteWithoutPercent(s: string)
    requires '%' !in s
    ensures Unquote(s) == s
  {
    UnquotePlainPrefix(s, []);
    assert s + [] == s;
  }

  /** An escape never reaches across into text that does not start with a
      hexadecimal digit (for instance `%` or `/`): decoding `a + b` is
      decoding `a` and `b` apart. */
  lemma {:induction false} UnquoteConcat(a: string, b: string)
    requires |b| == 0 || !IsHexDigit(b[0])
    ensures Unquote(a + b) == Unquote(a) + Unquote(b)
    decreases |a|
  {
    if |a| == 0 {
      assert a + b == b;
    } else if StartsWithEscape(a) {
      UnquoteConcat(a[3..], b);
      ConcatAfterEscape(a, b);
    } else {
      UnquoteConcat(a[1..], b);
      ConcatAfterPlain(a, b);
    }
  }

  /** The inductive step of `UnquoteConcat` when `a` starts with an escape. */
  lemma ConcatAfterEscape(a: string, b: string)
    requires StartsWithEscape(a)
    requires Unquote(a[3..] + b) == Unquote(a[3..]) + Unquote(b)
    ensures Unquote(a + b) == Unquote(a) + Unquote(b)
  {
    var x := [(16 * HexValue(a[1]) + HexValue(a[2])) as char];
    UnquoteEscapeHead(a, b);
    AppendAssoc(x, Unquote(a[3..]), Unquote(b));
  }

  /** The inductive step of `UnquoteConcat` when `a` starts with a plain
      character. */
  lemma ConcatAfterPlain(a: string, b: string)
    requires |a| > 0 && !StartsWithEscape(a)
    requires |b| == 0 || !IsHexDigit(b[0])
    requires Unquote(a[1..] + b) == Unquote(a[1..]) + Unquote(b)
    ensures Unquote(a + b) == Unquote(a) + Unquote(b)
  {
    var x := [a[0]];
    UnquotePlainHead(a, b);
    AppendAssoc(x, Unquote(a[1..]), Unquote(b));
  }

  lemma AppendAssoc(x: string, p: string, q: string)
    ensures x + (p + q) == (x + p) + q
  {
  }

  lemma UnquoteEscapeHead(a: string, b: string)
    requires StartsWithEscape(a)
    ensures Unquote(a + b) == [(16 * HexValue(a[1]) + HexValue(a[2])) as char] + Unquote(a[3..] + b)
  {
    var s := a + b;
    assert s[..3] == a[..3];
    assert StartsWithEscape(s);
    assert s[3..] == a[3..] + b;
  }

  lemma UnquotePlainHead(a: string, b: string)
    requires |a| > 0 && !StartsWithEscape(a)
    requires |b| == 0 || !IsHexDigit(b[0])
    ensures Unquote(a + b) == [a[0]] + Unquote(a[1..] + b)
  {
    var s := a + b;
    NoEscapeAcross(a, b);
    assert s[1..] == a[1..] + b;
  }

  lemma NoEscapeAcross(a: string, b: string)
    requires |a| > 0 && !StartsWithEscape(a)
    requires |b| == 0 || !IsHexDigit(b[0])
    ensures !StartsWithEscape(a + b)
  {
    var s := a + b;
    if |a| == 1 && |b| > 0 {
      assert s[1] == b[0];
    } else if |a| == 2 && |b| > 0 {
      assert s[2] == b[0];
    } else if |a| >= 3 {
      assert s[..3] == a[..3];
    }
  }

  /** A well-formed escape between two texts decodes on its own, and the
      texts around it decode apart. */
  lemma EscapeBetween(a: string, e: string, b: string)
    requires |e| == 3 && StartsWithEscape(e)
    ensures Unquote(a + e + b) == Unquote(a) + [(16 * HexValue(e[1]) + HexValue(e[2])) as char] + Unquote(b)
  {
    var x := [(16 * HexValue(e[1]) + HexValue(e[2])) as char];
    assert a + e + b == a + (e + b);
    UnquoteConcat(a, e + b);
    UnquoteEscapeHead(e, b);
    assert e[3..] + b == b;
    assert Unquote(e + b) == x + Unquote(b);
    assert Unquote(a) + (x + Unquote(b)) == Unquote(a) + x + Unquote(b);
  }

  /** A `%` that does not start a well-formed escape is kept as it is, and
      decoding goes on with the character after it. */
  lemma StrayPercentKept(b: string)
    requires !StartsWithEscape("%" + b)
    ensures Unquote("%" + b) == "%" + Unquote(b)
  {
    assert ("%" + b)[1..] == b;
  }

  /** The same inside a text: a stray `%` stays between the decoded texts
      around it. */
  lemma StrayPercentBetween(a: string, b: string)
    requires !StartsWithEscape("%" + b)
    ensures Unquote(a + "%" + b) == Unquote(a) + "%" + Unquote(b)
  {
    assert a + "%" + b == a + ("%" + b);
    UnquoteConcat(a, "%" + b);
    StrayPercentKept(b);
    AppendAssoc(Unquote(a), "%", Unquote(b));
  }

  /** `%2F` (or `%2f`) always decodes to a path separator. */
  lemma EncodedSlashDecodes(a: string, b: string)
    ensures Unquote(a + "%2F" + b) == Unquote(a) + "/" + Unquote(b)
    ensures Unquote(a + "%2f" + b) == Unquote(a) + "/" + Unquote(b)
  {
    EscapeBetween(a, "%2F", b);
    EscapeBetween(a, "%2f", b);
  }
}
