/** Reading a formatted context back into its numbered lines. The parser
    is the inverse of the formatting in `VertexClient`: parsing a context
    recovers exactly which snippets produced a line, under which number and
    with which text, so the formatting loses nothing and mixes nothing up. */
module ContextParse {
  import opened Results
  import opened Text
  import opened VertexClient

  /** Length of the longest prefix of `s` made of decimal digits. */
  function DigitRun(s: string): (n: nat)
    ensures n <= |s| && AllDigits(s[..n])
    ensures n < |s| ==> !IsDigit(s[n])
  {
    if |s| > 0 && IsDigit(s[0]) then
      var m := DigitRun(s[1..]);
      assert s[..m + 1] == [s[0]] + s[1..][..m];
      m + 1
    else 0
  }

  /** Position of the first newline in `s`, if there is one. */
  function NewlineAt(s: string): (r: Option<nat>)
    ensures r.Some? ==> r.value < |s| && s[r.value] == '\n' && '\n' !in s[..r.value]
    ensures r.None? ==> '\n' !in s
  {
    if |s| == 0 then None
    else if s[0] == '\n' then Some(0)
    else match NewlineAt(s[1..])
      case None => None
      case Some(k) =>
        assert s[..k + 1] == [s[0]] + s[1..][..k];
        Some(k + 1)
  }

  /** Reads one line `[<digits>] <content>\n` off the front of `s` and
      returns it with the rest of the text. */
  function ParseLine(s: string): (r: Option<(Numbered, string)>)
    ensures r.Some? ==> |r.value.1| < |s|
  {
    if |s| == 0 || s[0] != '[' then None
    else
      var d := DigitRun(s[1..]);
      if d == 0 then None
      else match ParseBody(s[1 + d..])
        case None => None
        case Some((content, rest)) =>
          assert s[1..1 + d] == s[1..][..d];
          Some((Numbered(ParseDecimal(s[1..1 + d]), content), rest))
  }

  /** Reads `] <content>\n` off the front of `s`, returning the content and
      the rest of the text. */
  function ParseBody(s: string): (r: Option<(string, string)>)
    ensures r.Some? ==> |r.value.1| < |s|
  {
    if |s| < 2 || s[0] != ']' || s[1] != ' ' then None
    else match NewlineAt(s[2..])
      case None => None
      case Some(e) => Some((s[2..][..e], s[2..][e + 1..]))
  }

  /** Reads a whole context: a sequence of lines and nothing else. */
  function ParseContext(s: string): Option<seq<Numbered>>
    decreases |s|
  {
    if |s| == 0 then Some([])
    else match ParseLine(s)
      case None => None
      case Some((n, rest)) =>
        match ParseContext(rest)
        case None => None
        case Some(ns) => Some([n] + ns)
  }

  lemma {:induction false} DigitRunOfDigits(d: string, t: string)
    requires AllDigits(d)
    requires |t| > 0 && !IsDigit(t[0])
    ensures DigitRun(d + t) == |d|
  {
    if |d| > 0 {
      assert (d + t)[1..] == d[1..] + t;
      DigitRunOfDigits(d[1..], t);
    } else {
      assert d + t == t;
    }
  }

  lemma {:induction false} NewlineAfter(c: string, t: string)
    requires '\n' !in c
    ensures NewlineAt(c + "\n" + t) == Some(|c|)
  {
    if |c| > 0 {
      assert (c + "\n" + t)[1..] == c[1..] + "\n" + t;
      NewlineAfter(c[1..], t);
    } else {
      assert c + "\n" + t == "\n" + t;
    }
  }

  /** A formatted line followed by any text parses back to that line. */
  lemma ParseLineOfLine(n: Numbered, rest: string)
    requires '\n' !in n.content
    ensures ParseLine(Line(n) + rest) == Some((n, rest))
  {
    var d := Decimal(n.number);
    assert Line(n) + rest == "[" + d + ("] " + (n.content + "\n" + rest));
    ParseLineParts(d, n.content, rest);
    DecimalRoundTrip(n.number);
  }

  /** The parser's view of `[d] c\n rest`: the digits `d`, the text `c`
      and the remainder `rest`. */
  lemma ParseLineParts(d: string, c: string, rest: string)
    requires |d| > 0 && AllDigits(d) && '\n' !in c
    ensures ParseLine("[" + d + ("] " + (c + "\n" + rest))) == Some((Numbered(ParseDecimal(d), c), rest))
  {
    var after := "] " + (c + "\n" + rest);
    SliceParts(d, after);
    DigitRunOfDigits(d, after);
    ParseBodyOf(c, rest);
  }

  lemma ParseBodyOf(c: string, rest: string)
    requires '\n' !in c
    ensures ParseBody("] " + (c + "\n" + rest)) == Some((c, rest))
  {
    var s := "] " + (c + "\n" + rest);
    assert s[2..] == c + "\n" + rest;
    NewlineAfter(c, rest);
    assert s[2..][..|c|] == c;
    assert s[2..][|c| + 1..] == rest;
  }

  lemma SliceParts(d: string, t: string)
    ensures ("[" + d + t)[1..] == d + t
    ensures ("[" + d + t)[1 + |d|..] == t
    ensures ("[" + d + t)[1..1 + |d|] == d
  {
  }

  /** Parsing undoes formatting, for any lines with newline-free text. */
  lemma {:induction false} ParseLines(ns: seq<Numbered>)
    requires NewlineFree(ns)
    ensures ParseContext(Lines(ns)) == Some(ns)
  {
    if |ns| > 0 {
      ParseLineOfLine(ns[0], Lines(ns[1..]));
      assert |Line(ns[0])| > 0;
      ParseLines(ns[1..]);
      assert ns == [ns[0]] + ns[1..];
    }
  }

  /** The context text of any snippets parses back to exactly the lines
      those snippets emit. */
  lemma ParseContextText(s: seq<Snippet>)
    ensures ParseContext(ContextText(s)) == Some(Numbering(s))
  {
    NewlineFreeNumbering(s);
    ParseLines(Numbering(s));
  }
}
