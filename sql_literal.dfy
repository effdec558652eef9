/**
 * `escapeLiteral`, the only protection the SQL text built by the user store
 * has: null becomes the keyword NULL, any other value is wrapped in single
 * quotes with every quote inside doubled. Its partners are `Undouble`, the
 * inverse of the quoting of the interior, and `ReadLiteral`, the way SQLite's
 * tokenizer reads a string literal off the front of the statement text.
 */
module SqlLiteral {
  import opened Wrappers

  const Quote: char := '\''

  /** U+0000: no argument string of a command line can carry it. */
  const Nul: char := '\0'

  /** `s.replace(/'/g, "''")`. */
  function DoubleQuotes(s: string): (r: string)
    ensures |r| >= |s|
    ensures (forall k :: 0 <= k < |s| ==> s[k] != Quote) ==> r == s
  {
    if s == [] then []
    else (if s[0] == Quote then [Quote, Quote] else [s[0]]) + DoubleQuotes(s[1..])
  }

  /** `escapeLiteral(value)`; `None` stands for both `null` and `undefined`. */
  function EscapeLiteral(value: Option<string>): (lit: string)
    ensures lit == "NULL" <==> value.None?
    ensures value.Some? ==> |lit| >= 2 && lit[0] == Quote && lit[|lit| - 1] == Quote
  {
    match value
    case None => "NULL"
    case Some(s) =>
      var lit := [Quote] + DoubleQuotes(s) + [Quote];
      assert lit[0] != "NULL"[0];
      lit
  }

  /**
   * Collapses every `''` back to `'`; `None` when a quote stands alone, i.e.
   * when the text could not sit inside a literal without ending it.
   */
  function Undouble(t: string): (r: Option<string>)
  {
    if t == [] then Some([])
    else if t[0] == Quote then
      if |t| >= 2 && t[1] == Quote then
        match Undouble(t[2..])
        case None => None
        case Some(v) => Some([Quote] + v)
      else None
    else
      match Undouble(t[1..])
      case None => None
      case Some(v) => Some([t[0]] + v)
  }

  /**
   * SQLite's tokenizer after the opening quote of a string literal: `''` is
   * one quote character, a lone `'` closes the literal, and the end of the
   * text before the closing quote leaves it unterminated. Gives the
   * literal's text and the number of characters consumed, closing quote
   * included. (SQLite is only ever given statement text without U+0000, the
   * only text an argument can carry; see `EscapedNul`.)
   */
  function ReadQuoted(t: string): (r: Option<(string, nat)>)
    ensures r.Some? ==> 0 < r.value.1 <= |t|
  {
    if t == [] then None
    else if t[0] == Quote then
      if |t| >= 2 && t[1] == Quote then
        match ReadQuoted(t[2..])
        case None => None
        case Some((v, n)) => Some(([Quote] + v, n + 2))
      else Some(([], 1))
    else
      match ReadQuoted(t[1..])
      case None => None
      case Some((v, n)) => Some(([t[0]] + v, n + 1))
  }

  /** A string literal read off the front of `t`: its text and its length. */
  function ReadLiteral(t: string): (r: Option<(string, nat)>)
    ensures r.Some? ==> 2 <= r.value.1 <= |t|
  {
    if t != [] && t[0] == Quote then
      match ReadQuoted(t[1..])
      case None => None
      case Some((v, n)) => Some((v, n + 1))
    else None
  }

  /** Collapsing the doubled quotes gives the original text back. */
  lemma {:induction false} UndoubleDoubleQuotes(s: string)
    ensures Undouble(DoubleQuotes(s)) == Some(s)
  {
    if s != [] {
      UndoubleDoubleQuotes(s[1..]);
      var head := if s[0] == Quote then [Quote, Quote] else [s[0]];
      assert DoubleQuotes(s) == head + DoubleQuotes(s[1..]);
      if s[0] == Quote {
        assert (head + DoubleQuotes(s[1..]))[2..] == DoubleQuotes(s[1..]);
      } else {
        assert (head + DoubleQuotes(s[1..]))[1..] == DoubleQuotes(s[1..]);
      }
      assert [s[0]] + s[1..] == s;
    }
  }

  /** The other direction: text without a lone quote is the doubling of what it collapses to. */
  lemma {:induction false} DoubleQuotesUndouble(t: string)
    requires Undouble(t).Some?
    ensures DoubleQuotes(Undouble(t).value) == t
  {
    if t != [] {
      if t[0] == Quote {
        DoubleQuotesUndouble(t[2..]);
        var v := Undouble(t[2..]).value;
        assert ([Quote] + v)[1..] == v;
        assert t == [Quote, Quote] + t[2..];
      } else {
        DoubleQuotesUndouble(t[1..]);
        var v := Undouble(t[1..]).value;
        assert ([t[0]] + v)[1..] == v;
        assert t == [t[0]] + t[1..];
      }
    }
  }

  /** Between its quotes, an escaped literal holds no lone quote and collapses back to the value. */
  lemma EscapedInterior(s: string)
    ensures var lit := EscapeLiteral(Some(s));
            Undouble(lit[1..|lit| - 1]) == Some(s)
  {
    var lit := EscapeLiteral(Some(s));
    assert lit[1..|lit| - 1] == DoubleQuotes(s);
    UndoubleDoubleQuotes(s);
  }

  /** An ordinary character in front of readable text is read as itself. */
  lemma ReadQuotedPlain(c: char, tail: string, v: string, n: nat)
    requires c != Quote && ReadQuoted(tail) == Some((v, n))
    ensures ReadQuoted([c] + tail) == Some(([c] + v, n + 1))
  {
    assert ([c] + tail)[1..] == tail;
  }

  /** A doubled quote in front of readable text is read as one quote. */
  lemma ReadQuotedPair(tail: string, v: string, n: nat)
    requires ReadQuoted(tail) == Some((v, n))
    ensures ReadQuoted([Quote, Quote] + tail) == Some(([Quote] + v, n + 2))
  {
    assert ([Quote, Quote] + tail)[2..] == tail;
  }

  /** Doubling the quotes of a non-empty text works on its first character, then on the rest. */
  lemma DoubleQuotesCons(s: string, x: string)
    requires s != []
    ensures var head := if s[0] == Quote then [Quote, Quote] else [s[0]];
            DoubleQuotes(s) + x == head + (DoubleQuotes(s[1..]) + x)
            && |DoubleQuotes(s)| == |head| + |DoubleQuotes(s[1..])|
  {
  }

  /** Doubled text in front of anything the tokenizer reads as a closing quote is read back as the original text. */
  lemma {:induction false} ReadQuotedDoubledBefore(s: string, x: string)
    requires ReadQuoted(x) == Some(([], 1))
    ensures ReadQuoted(DoubleQuotes(s) + x) == Some((s, |DoubleQuotes(s)| + 1))
  {
    if s == [] {
      assert DoubleQuotes(s) + x == x;
    } else {
      var tail := DoubleQuotes(s[1..]) + x;
      var n := |DoubleQuotes(s[1..])| + 1;
      ReadQuotedDoubledBefore(s[1..], x);
      DoubleQuotesCons(s, x);
      assert [s[0]] + s[1..] == s;
      if s[0] == Quote {
        ReadQuotedPair(tail, s[1..], n);
        assert ReadQuoted([Quote, Quote] + tail) == Some((s, n + 2));
      } else {
        ReadQuotedPlain(s[0], tail, s[1..], n);
        assert ReadQuoted([s[0]] + tail) == Some((s, n + 1));
      }
    }
  }

  /** The tokenizer reads doubled text followed by a closing quote back as the original text. */
  lemma ReadQuotedDoubled(s: string, rest: string)
    requires rest == [] || rest[0] != Quote
    ensures ReadQuoted(DoubleQuotes(s) + [Quote] + rest) == Some((s, |DoubleQuotes(s)| + 1))
  {
    var close := [Quote] + rest;
    assert ReadQuoted(close) == Some(([], 1));
    ReadQuotedDoubledBefore(s, close);
    assert DoubleQuotes(s) + [Quote] + rest == DoubleQuotes(s) + close;
  }

  /**
   * No injection: whatever follows an escaped value in the statement text
   * (anything but a quote, which the service never writes there), the
   * tokenizer ends the literal exactly where the escaped text ends and reads
   * the value back unchanged.
   */
  lemma EscapeReadsBack(s: string, rest: string)
    requires rest == [] || rest[0] != Quote
    ensures ReadLiteral(EscapeLiteral(Some(s)) + rest) == Some((s, |EscapeLiteral(Some(s))|))
  {
    var t := EscapeLiteral(Some(s)) + rest;
    assert t[1..] == DoubleQuotes(s) + [Quote] + rest;
    ReadQuotedDoubled(s, rest);
  }

  /** Doubling the quotes neither adds nor removes a U+0000. */
  lemma {:induction false} DoubleQuotesNul(s: string)
    ensures Nul in DoubleQuotes(s) <==> Nul in s
  {
    if s != [] {
      DoubleQuotesNul(s[1..]);
      var head := if s[0] == Quote then [Quote, Quote] else [s[0]];
      assert DoubleQuotes(s) == head + DoubleQuotes(s[1..]);
      assert s == [s[0]] + s[1..];
    }
  }

  /**
   * A statement holding an escaped value holds U+0000 exactly when the value
   * or the rest of the statement does: the escaping neither introduces one
   * nor hides one, so such a statement can never be passed to the command.
   */
  lemma EscapedNul(s: string, rest: string)
    ensures Nul in EscapeLiteral(Some(s)) + rest <==> Nul in s || Nul in rest
  {
    DoubleQuotesNul(s);
    assert EscapeLiteral(Some(s)) + rest == [Quote] + DoubleQuotes(s) + ([Quote] + rest);
  }
}
