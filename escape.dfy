/**
 * The escaping `mark_failed_jobs` applies to `last_error` before quoting it
 * in the INSERT statement: every backslash is doubled, then every single
 * quote is doubled (two `gsub` passes, in that order).
 *
 * Partners of the escape: the two-pass un-escape (halve doubled quotes, then
 * doubled backslashes), and an independent reader of MySQL single-quoted
 * string literals (backslash escape sequences and doubled quotes, as the
 * MySQL Reference Manual's section on string literals describes them).
 */
module SqlEscape {
  import opened Wrappers
  import opened Text

  const Backslash: char := '\\'
  const Quote: char := '\''

  /** First pass: `gsub(/\\/, '\&\&')` replaces each backslash by two. */
  function DoubleBackslashes(s: string): (r: string)
    ensures |r| == |s| + Count(s, Backslash)
  {
    if s == [] then [] else (if s[0] == Backslash then [Backslash, Backslash] else [s[0]]) + DoubleBackslashes(s[1..])
  }

  /** Second pass: `gsub(/'/, "''")` replaces each quote by two. */
  function DoubleQuotes(s: string): (r: string)
    ensures |r| == |s| + Count(s, Quote)
  {
    if s == [] then [] else (if s[0] == Quote then [Quote, Quote] else [s[0]]) + DoubleQuotes(s[1..])
  }

  /** The escaped `last_error` text as it is placed between quotes. */
  function Escape(s: string): string
  {
    DoubleQuotes(DoubleBackslashes(s))
  }

  function HalveQuotes(s: string): string
  {
    if s == [] then []
    else if |s| >= 2 && s[0] == Quote && s[1] == Quote then [Quote] + HalveQuotes(s[2..])
    else [s[0]] + HalveQuotes(s[1..])
  }

  function HalveBackslashes(s: string): string
  {
    if s == [] then []
    else if |s| >= 2 && s[0] == Backslash && s[1] == Backslash then [Backslash] + HalveBackslashes(s[2..])
    else [s[0]] + HalveBackslashes(s[1..])
  }

  /** Undoes the two passes in reverse order. */
  function Unescape(s: string): string
  {
    HalveBackslashes(HalveQuotes(s))
  }

  /** Every quote of `s` is the first of an adjacent pair, read left to right. */
  predicate QuotesPaired(s: string)
  {
    if s == [] then true
    else if s[0] == Quote then |s| >= 2 && s[1] == Quote && QuotesPaired(s[2..])
    else QuotesPaired(s[1..])
  }

  /** What a backslash followed by `c` denotes inside a MySQL string literal. */
  function MySqlEscapeSequence(c: char): string
  {
    match c
    case '0' => [0 as char]
    case 'b' => [8 as char]
    case 'n' => "\n"
    case 'r' => "\r"
    case 't' => "\t"
    case 'Z' => [26 as char]
    case '%' => [Backslash, '%']
    case '_' => [Backslash, '_']
    case _ => [c]
  }

  /**
   * Reads the body of a MySQL single-quoted literal whose opening quote has
   * been consumed: the value denoted and the text after the closing quote.
   */
  function ReadQuoted(s: string): (r: Option<(string, string)>)
    ensures r.Some? ==> |r.value.1| < |s|
  {
    if s == [] then None
    else if s[0] == Backslash then
      if |s| < 2 then None
      else
        var p :- ReadQuoted(s[2..]);
        Some((MySqlEscapeSequence(s[1]) + p.0, p.1))
    else if s[0] == Quote then
      if |s| >= 2 && s[1] == Quote then
        var p :- ReadQuoted(s[2..]);
        Some(([Quote] + p.0, p.1))
      else Some(([], s[1..]))
    else
      var p :- ReadQuoted(s[1..]);
      Some(([s[0]] + p.0, p.1))
  }

  /** The escape of one character, so that `Escape` can be taken apart from the front. */
  function EscapeChar(c: char): string
  {
    if c == Backslash then [Backslash, Backslash] else if c == Quote then [Quote, Quote] else [c]
  }

  lemma {:induction false} DoubleQuotesAppend(a: string, b: string)
    ensures DoubleQuotes(a + b) == DoubleQuotes(a) + DoubleQuotes(b)
  {
    if a == [] {
      assert a + b == b;
    } else {
      assert (a + b)[1..] == a[1..] + b;
      DoubleQuotesAppend(a[1..], b);
    }
  }

  lemma EscapeCons(c: char, s: string)
    ensures Escape([c] + s) == EscapeChar(c) + Escape(s)
  {
    assert ([c] + s)[1..] == s;
    var head := if c == Backslash then [Backslash, Backslash] else [c];
    assert DoubleBackslashes([c] + s) == head + DoubleBackslashes(s);
    DoubleQuotesAppend(head, DoubleBackslashes(s));
    if c == Backslash {
      assert DoubleQuotes(head) == [Backslash] + DoubleQuotes([Backslash]);
    }
  }

  lemma {:induction false} HalveDoubledQuotes(s: string)
    ensures HalveQuotes(DoubleQuotes(s)) == s
  {
    if s != [] {
      HalveDoubledQuotes(s[1..]);
      if s[0] == Quote {
        assert DoubleQuotes(s)[2..] == DoubleQuotes(s[1..]);
      } else {
        assert DoubleQuotes(s)[1..] == DoubleQuotes(s[1..]);
      }
    }
  }

  lemma {:induction false} HalveDoubledBackslashes(s: string)
    ensures HalveBackslashes(DoubleBackslashes(s)) == s
  {
    if s != [] {
      HalveDoubledBackslashes(s[1..]);
      if s[0] == Backslash {
        assert DoubleBackslashes(s)[2..] == DoubleBackslashes(s[1..]);
      } else {
        assert DoubleBackslashes(s)[1..] == DoubleBackslashes(s[1..]);
      }
    }
  }

  /** Un-escaping recovers the original `last_error` text. */
  lemma UnescapeEscape(s: string)
    ensures Unescape(Escape(s)) == s
  {
    HalveDoubledQuotes(DoubleBackslashes(s));
    HalveDoubledBackslashes(s);
  }

  lemma {:induction false} DoubleBackslashesKeepsQuotes(s: string)
    ensures Count(DoubleBackslashes(s), Quote) == Count(s, Quote)
  {
    if s != [] {
      var head := if s[0] == Backslash then [Backslash, Backslash] else [s[0]];
      assert s == [s[0]] + s[1..];
      CountAppend(head, DoubleBackslashes(s[1..]), Quote);
      DoubleBackslashesKeepsQuotes(s[1..]);
    }
  }

  /** The escaped text is longer by exactly one character per backslash and per quote. */
  lemma EscapeLength(s: string)
    ensures |Escape(s)| == |s| + Count(s, Backslash) + Count(s, Quote)
  {
    DoubleBackslashesKeepsQuotes(s);
  }

  lemma {:induction false} DoubledQuotesArePaired(s: string)
    ensures QuotesPaired(DoubleQuotes(s))
  {
    if s != [] {
      DoubledQuotesArePaired(s[1..]);
      if s[0] == Quote {
        assert DoubleQuotes(s)[2..] == DoubleQuotes(s[1..]);
      } else {
        assert DoubleQuotes(s)[1..] == DoubleQuotes(s[1..]);
      }
    }
  }

  /** Every quote the escape produces stands in an adjacent pair. */
  lemma EscapedQuotesPaired(s: string)
    ensures QuotesPaired(Escape(s))
  {
    DoubledQuotesArePaired(DoubleBackslashes(s));
  }

  lemma EscapeFront(e: string, rest: string)
    requires e != []
    ensures Escape(e) + [Quote] + rest == EscapeChar(e[0]) + (Escape(e[1..]) + [Quote] + rest)
  {
    assert e == [e[0]] + e[1..];
    EscapeCons(e[0], e[1..]);
  }

  /** Reading one escaped character in front of a literal body prepends that character. */
  lemma ReadEscapedChar(c: char, x: string, t: string, rest: string)
    requires ReadQuoted(x) == Some((t, rest))
    ensures ReadQuoted(EscapeChar(c) + x) == Some(([c] + t, rest))
  {
    var s := EscapeChar(c) + x;
    if c == Backslash {
      assert s[0] == Backslash && s[1] == Backslash && s[2..] == x;
    } else if c == Quote {
      assert s[0] == Quote && s[1] == Quote && s[2..] == x;
    } else {
      assert s[0] == c && s[1..] == x;
    }
  }

  /**
   * Injection safety: a MySQL server reading `'` + Escape(e) + `'` + rest
   * stops exactly at the closing quote and recovers `e`, whatever `e` holds,
   * provided the text after the literal does not itself start with a quote.
   */
  lemma {:induction false} ReadEscapedLiteral(e: string, rest: string)
    requires rest == [] || rest[0] != Quote
    ensures ReadQuoted(Escape(e) + [Quote] + rest) == Some((e, rest))
  {
    if e == [] {
      assert Escape(e) + [Quote] + rest == [Quote] + rest;
      assert ([Quote] + rest)[1..] == rest;
    } else {
      var c, t := e[0], e[1..];
      var x := Escape(t) + [Quote] + rest;
      EscapeFront(e, rest);
      ReadEscapedLiteral(t, rest);
      assert e == [c] + t;
      ReadEscapedChar(c, x, t, rest);
    }
  }
}
