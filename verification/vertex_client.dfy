/** The formatting half of `get_grounded_context`: the retrieved contexts,
    already read out of the retrieval response, become numbered context
    lines for the language model plus a set of citation basenames. When no
    line is produced the fixed sentinel text is returned instead. */
module VertexClient {
  import opened Text
  import opened Ordering

  /** Returned in place of an empty context. */
  const NO_DOCUMENTS := "No relevant documents found."

  /** One retrieved context once its fields have been read: the snippet
      text as returned, and its source URI ("" when it has none). */
  datatype Snippet = Snippet(text: string, sourceUri: string)

  /** Reading one context out of the response either yields its fields or
      raises; a raise ends the whole formatting loop. */
  datatype Probe = Parsed(snippet: Snippet) | Unreadable

  /** One emitted context line: its 1-based number and its text. */
  datatype Numbered = Numbered(number: nat, content: string)

  /** `text.replace("\n", " ")`. */
  function Flatten(t: string): (r: string)
    ensures |r| == |t| && '\n' !in r
    ensures forall k :: 0 <= k < |t| && t[k] != '\n' ==> r[k] == t[k]
    ensures forall k :: 0 <= k < |t| && t[k] == '\n' ==> r[k] == ' '
  {
    seq(|t|, k requires 0 <= k < |t| => if t[k] == '\n' then ' ' else t[k])
  }

  /** `os.path.basename` on a POSIX path: the text after the last '/'. */
  function Basename(path: string): (r: string)
    ensures '/' !in r
  {
    if |path| == 0 || path[|path| - 1] == '/' then ""
    else Basename(path[..|path| - 1]) + [path[|path| - 1]]
  }

  /** The basename is the longest suffix of the path that holds no '/'. */
  lemma {:induction false} BasenameIsLastSegment(path: string)
    ensures var r := Basename(path);
      && |r| <= |path|
      && r == path[|path| - |r|..]
      && (|r| < |path| ==> path[|path| - |r| - 1] == '/')
  {
    if |path| > 0 && path[|path| - 1] != '/' {
      var init, c := path[..|path| - 1], path[|path| - 1];
      assert path == init + [c];
      BasenameIsLastSegment(init);
      SuffixSnoc(init, c, |Basename(init)|);
    }
  }

  lemma SuffixSnoc(a: string, c: char, k: nat)
    requires k <= |a|
    ensures (a + [c])[|a| - k..] == a[|a| - k..] + [c]
  {
  }

  /** The longest prefix of `ps` whose contexts could all be read. */
  function Readable(ps: seq<Probe>): (r: seq<Snippet>)
    ensures |r| <= |ps|
    ensures forall k :: 0 <= k < |r| ==> ps[k] == Parsed(r[k])
    ensures |r| < |ps| ==> ps[|r|].Unreadable?
  {
    if |ps| == 0 || ps[0].Unreadable? then []
    else [ps[0].snippet] + Readable(ps[1..])
  }

  /** Some snippet has text, so some context line will be emitted. */
  predicate HasContent(s: seq<Snippet>) {
    exists k :: 0 <= k < |s| && s[k].text != ""
  }

  /** The lines the formatting loop emits, in order: snippet `k` (0-based)
      with non-empty text yields line number `k + 1`. */
  function Numbering(s: seq<Snippet>): (r: seq<Numbered>)
    ensures forall j :: 0 <= j < |r| ==> 1 <= r[j].number <= |s|
    ensures forall i, j :: 0 <= i < j < |r| ==> r[i].number < r[j].number
  {
    if |s| == 0 then []
    else
      var c := Flatten(s[|s| - 1].text);
      Numbering(s[..|s| - 1]) + (if c == "" then [] else [Numbered(|s|, c)])
  }

  /** Each emitted line carries the flattened, non-empty text of the
      snippet its number points at. */
  lemma {:induction false} NumberingContent(s: seq<Snippet>)
    ensures forall j :: 0 <= j < |Numbering(s)| ==>
      var n := Numbering(s)[j];
      n.content != "" && n.content == Flatten(s[n.number - 1].text)
  {
    if |s| > 0 {
      var init := s[..|s| - 1];
      NumberingContent(init);
      forall j | 0 <= j < |Numbering(init)|
        ensures s[Numbering(init)[j].number - 1] == init[Numbering(init)[j].number - 1]
      {
      }
    }
  }

  /** Some line carries number `m`. */
  predicate HasNumber(ns: seq<Numbered>, m: nat) {
    exists j :: 0 <= j < |ns| && ns[j].number == m
  }

  /** A snippet emits a line exactly when its text is non-empty. */
  lemma {:induction false} NumberingCovers(s: seq<Snippet>, k: nat)
    requires k < |s|
    ensures s[k].text != "" <==> HasNumber(Numbering(s), k + 1)
  {
    var init := s[..|s| - 1];
    var c := Flatten(s[|s| - 1].text);
    var tail: seq<Numbered> := if c == "" then [] else [Numbered(|s|, c)];
    var ns := Numbering(init);
    assert Numbering(s) == ns + tail;
    if k < |s| - 1 {
      NumberingCovers(init, k);
      assert init[k] == s[k];
      CoversEarlier(ns, tail, k + 1);
    } else {
      assert |c| == |s[k].text|;
      CoversLast(ns, tail, |init|, k + 1);
      if c != "" {
        assert tail[0].number == k + 1;
      }
    }
  }

  /** A number below the first one appended is found in the extension
      exactly when it is found in the original lines. */
  lemma CoversEarlier(ns: seq<Numbered>, tail: seq<Numbered>, m: nat)
    requires forall j :: 0 <= j < |tail| ==> tail[j].number > m
    ensures HasNumber(ns + tail, m) <==> HasNumber(ns, m)
  {
    if HasNumber(ns + tail, m) {
      var j :| 0 <= j < |ns + tail| && (ns + tail)[j].number == m;
      assert j < |ns|;
      assert ns[j] == (ns + tail)[j];
    }
    if HasNumber(ns, m) {
      var j :| 0 <= j < |ns| && ns[j].number == m;
      assert ns[j] == (ns + tail)[j];
    }
  }

  /** A number above every existing one is found after the extension
      exactly when the extension carries it. */
  lemma CoversLast(ns: seq<Numbered>, tail: seq<Numbered>, bound: nat, m: nat)
    requires forall j :: 0 <= j < |ns| ==> ns[j].number <= bound
    requires bound < m
    ensures HasNumber(ns + tail, m) <==> HasNumber(tail, m)
  {
    if HasNumber(ns + tail, m) {
      var j :| 0 <= j < |ns + tail| && (ns + tail)[j].number == m;
      assert (ns + tail)[j] == tail[j - |ns|];
    }
    if HasNumber(tail, m) {
      var j :| 0 <= j < |tail| && tail[j].number == m;
      assert (ns + tail)[|ns| + j] == tail[j];
    }
  }

  predicate NewlineFree(ns: seq<Numbered>) {
    forall j :: 0 <= j < |ns| ==> '\n' !in ns[j].content
  }

  /** One context line, `f"[{i + 1}] {content}\n"`. */
  function Line(n: Numbered): string {
    "[" + Decimal(n.number) + "] " + n.content + "\n"
  }

  function Lines(ns: seq<Numbered>): string {
    if |ns| == 0 then "" else Line(ns[0]) + Lines(ns[1..])
  }

  /** The context text built from the readable snippets. */
  function ContextText(s: seq<Snippet>): string {
    Lines(Numbering(s))
  }

  /** The citations the formatting loop collects: the basename of the
      source of every snippet that emitted a line and has a source. */
  function Citations(s: seq<Snippet>): set<string> {
    if |s| == 0 then {}
    else
      var x := s[|s| - 1];
      Citations(s[..|s| - 1]) + (if x.text != "" && x.sourceUri != "" then {Basename(x.sourceUri)} else {})
  }

  /** `list(citations)`: the members of a set, each once, in an order the
      source leaves unspecified. */
  method ListOf(s: set<string>) returns (l: seq<string>)
    ensures Distinct(l) && |l| == |s|
    ensures forall x :: x in l <==> x in s
  {
    l := [];
    var rest := s;
    while rest != {}
      invariant rest <= s
      invariant forall x :: x in l <==> x in s && x !in rest
      invariant Distinct(l)
      invariant |l| + |rest| == |s|
      decreases |rest|
    {
      var x :| x in rest;
      l := l + [x];
      rest := rest - {x};
    }
  }

  /** The formatting loop: walk the contexts in order, emit a line for
      every one with text, collect citations, and stop at the first context
      that cannot be read. */
  method FormatContexts(ps: seq<Probe>) returns (snippets: string, found: set<string>)
    ensures snippets == ContextText(Readable(ps))
    ensures found == Citations(Readable(ps))
  {
    ghost var s := Readable(ps);
    snippets := "";
    found := {};
    var i := 0;
    while i < |ps| && ps[i].Parsed?
      invariant i <= |s|
      invariant snippets == ContextText(s[..i])
      invariant found == Citations(s[..i])
    {
      var snip := ps[i].snippet;
      var content := Flatten(snip.text);
      ReadableStep(ps, i);
      if content != "" {
        snippets := snippets + Line(Numbered(i + 1, content));
        if snip.sourceUri != "" {
          found := found + {Basename(snip.sourceUri)};
        }
      }
      i := i + 1;
    }
    assert s[..i] == s;
  }

  /** `get_grounded_context` after the retrieval call: the formatted
      contexts and their citations, or the sentinel when nothing was
      emitted. */
  method GetGroundedContext(ps: seq<Probe>) returns (context: string, citations: seq<string>)
    ensures !HasContent(Readable(ps)) ==> context == NO_DOCUMENTS && citations == []
    ensures HasContent(Readable(ps)) ==>
      && context == ContextText(Readable(ps))
      && Distinct(citations)
      && forall c :: c in citations <==> c in Citations(Readable(ps))
  {
    var snippets, found := FormatContexts(ps);
    ContextTextEmpty(Readable(ps));
    if snippets == "" {
      return NO_DOCUMENTS, [];
    }
    context := snippets;
    citations := ListOf(found);
  }

  /** One turn of the formatting loop, phrased over the contexts: a
      readable context inside the readable prefix extends it by its
      snippet. */
  lemma ReadableStep(ps: seq<Probe>, i: nat)
    requires i < |ps| && ps[i].Parsed? && i <= |Readable(ps)|
    ensures var s := Readable(ps); var x := ps[i].snippet; var c := Flatten(x.text);
      && i < |s|
      && ContextText(s[..i + 1]) == ContextText(s[..i]) + (if c == "" then "" else Line(Numbered(i + 1, c)))
      && Citations(s[..i + 1]) == Citations(s[..i]) + (if c != "" && x.sourceUri != "" then {Basename(x.sourceUri)} else {})
  {
    ReadableAt(ps, i);
    FormatStepOf(Readable(ps), i, ps[i].snippet);
  }

  lemma ReadableAt(ps: seq<Probe>, i: nat)
    requires i < |ps| && ps[i].Parsed? && i <= |Readable(ps)|
    ensures i < |Readable(ps)| && Readable(ps)[i] == ps[i].snippet
  {
  }

  lemma FormatStepOf(s: seq<Snippet>, i: nat, x: Snippet)
    requires i < |s| && s[i] == x
    ensures var c := Flatten(x.text);
      && ContextText(s[..i + 1]) == ContextText(s[..i]) + (if c == "" then "" else Line(Numbered(i + 1, c)))
      && Citations(s[..i + 1]) == Citations(s[..i]) + (if c != "" && x.sourceUri != "" then {Basename(x.sourceUri)} else {})
  {
    FormatStep(s, i);
  }

  /** What one more snippet adds to the context text and the citations. */
  lemma FormatStep(s: seq<Snippet>, i: nat)
    requires i < |s|
    ensures var c := Flatten(s[i].text);
      ContextText(s[..i + 1]) == ContextText(s[..i]) + (if c == "" then "" else "[" + Decimal(i + 1) + "] " + c + "\n")
    ensures var c := Flatten(s[i].text);
      Citations(s[..i + 1]) == Citations(s[..i]) + (if c != "" && s[i].sourceUri != "" then {Basename(s[i].sourceUri)} else {})
  {
    var c := Flatten(s[i].text);
    assert s[..i + 1] == s[..i] + [s[i]];
    NumberingSnoc(s[..i], s[i]);
    if c != "" {
      LinesSnoc(Numbering(s[..i]), Numbered(i + 1, c));
    } else {
      assert Numbering(s[..i + 1]) == Numbering(s[..i]);
    }
    assert s[..i + 1][..i] == s[..i];
  }

  lemma NumberingSnoc(s: seq<Snippet>, x: Snippet)
    ensures Numbering(s + [x]) ==
      Numbering(s) + (if Flatten(x.text) == "" then [] else [Numbered(|s| + 1, Flatten(x.text))])
  {
  }

  lemma {:induction false} LinesSnoc(ns: seq<Numbered>, n: Numbered)
    ensures Lines(ns + [n]) == Lines(ns) + Line(n)
  {
    if |ns| > 0 {
      assert (ns + [n])[1..] == ns[1..] + [n];
      LinesSnoc(ns[1..], n);
    }
  }

  /** Snippet `x` contributes citation `c`. */
  predicate Cites(x: Snippet, c: string) {
    x.text != "" && x.sourceUri != "" && c == Basename(x.sourceUri)
  }

  /** A string is cited exactly when it is the basename of the source of
      some snippet that has both text and a source. */
  lemma {:induction false} CitationsMembers(s: seq<Snippet>, c: string)
    ensures c in Citations(s) <==> exists k :: 0 <= k < |s| && Cites(s[k], c)
  {
    if |s| > 0 {
      var init := s[..|s| - 1];
      var x := s[|s| - 1];
      CitationsMembers(init, c);
      if c in Citations(s) {
        if c in Citations(init) {
          var k :| 0 <= k < |init| && Cites(init[k], c);
          assert s[k] == init[k];
        } else {
          assert Cites(s[|s| - 1], c);
        }
      }
      if exists k :: 0 <= k < |s| && Cites(s[k], c) {
        var k :| 0 <= k < |s| && Cites(s[k], c);
        if k < |init| {
          assert Cites(init[k], c);
        }
      }
    }
  }

  /** The emitted context is empty exactly when no snippet has text. */
  lemma ContextTextEmpty(s: seq<Snippet>)
    ensures ContextText(s) == "" <==> !HasContent(s)
  {
    var ns := Numbering(s);
    if ns == [] {
      forall k | 0 <= k < |s| ensures s[k].text == "" {
        NumberingCovers(s, k);
      }
    } else {
      NumberingContent(s);
      assert s[ns[0].number - 1].text != "";
      assert |Line(ns[0])| > 0;
    }
  }

  /** Number of snippets with non-empty text. */
  function TextCount(s: seq<Snippet>): nat {
    if |s| == 0 then 0
    else TextCount(s[..|s| - 1]) + (if s[|s| - 1].text != "" then 1 else 0)
  }

  lemma {:induction false} NumberingLength(s: seq<Snippet>)
    ensures |Numbering(s)| == TextCount(s)
  {
    if |s| > 0 {
      NumberingLength(s[..|s| - 1]);
    }
  }

  lemma NewlineFreeNumbering(s: seq<Snippet>)
    ensures NewlineFree(Numbering(s))
  {
  }

  lemma LineNewlines(n: Numbered)
    requires '\n' !in n.content
    ensures Count('\n', Line(n)) == 1
  {
    var d := Decimal(n.number);
    assert '\n' !in d;
    CountConcat('\n', "[" + d + "] " + n.content, "\n");
    CountConcat('\n', "[" + d + "] ", n.content);
    CountConcat('\n', "[" + d, "] ");
    CountConcat('\n', "[", d);
    CountAbsent('\n', d);
    CountAbsent('\n', n.content);
  }

  /** Every line ends in the one newline it contains. */
  lemma {:induction false} LinesNewlines(ns: seq<Numbered>)
    requires NewlineFree(ns)
    ensures Count('\n', Lines(ns)) == |ns|
    ensures ns != [] ==> |Lines(ns)| > 0 && Lines(ns)[|Lines(ns)| - 1] == '\n'
  {
    if |ns| > 0 {
      LinesNewlines(ns[1..]);
      LineNewlines(ns[0]);
      CountConcat('\n', Line(ns[0]), Lines(ns[1..]));
    }
  }

  /** A non-sentinel context is non-empty, ends in a newline and holds
      exactly one newline per snippet with text; the sentinel holds none,
      so the two can never be confused. */
  lemma ContextShape(s: seq<Snippet>)
    requires HasContent(s)
    ensures var t := ContextText(s);
      && |t| > 0
      && t[|t| - 1] == '\n'
      && Count('\n', t) == TextCount(s)
    ensures NO_DOCUMENTS[|NO_DOCUMENTS| - 1] != '\n'
  {
    ContextTextEmpty(s);
    NewlineFreeNumbering(s);
    NumberingLength(s);
    LinesNewlines(Numbering(s));
  }

  /** A context that cannot be read hides itself and every later one:
      the result is what the earlier contexts alone produce. */
  lemma {:induction false} UnreadableTruncates(ps: seq<Probe>, k: nat)
    requires k < |ps| && ps[k].Unreadable?
    ensures Readable(ps) == Readable(ps[..k])
  {
    if k > 0 && ps[0].Parsed? {
      assert ps[1..][..k - 1] == ps[..k][1..];
      UnreadableTruncates(ps[1..], k - 1);
    }
  }
}
