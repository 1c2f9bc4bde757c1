/** The local post-processing around the Stanford CoreNLP tagging server:
    `StanfordCoreNLP.parse` and `split_sentences` of src/authorclustering/corenlp.py,
    and the URL normalisation and `parse` of src/corenlp.py. The HTTP round trip
    (`_annotate` / `annotate`) is a parameter: it either fails, as a refused connection
    does, or returns the decoded `sentences` list of the server's answer. */
module CoreNLP {
  import opened Wrappers
  import opened PyStr
  import opened Seqs

  /** One element of a sentence's `tokens` list. */
  datatype Token = Token(word: string, pos: string, begin: int, end: int)

  /** One element of the answer's `sentences` list. */
  datatype Sentence = Sentence(tokens: seq<Token>)

  /** The annotation call: the text sent, and the server's sentences or a failure. The
      same call stands for the `tokenize,ssplit,pos` request of `parse` and the
      `tokenize,ssplit` request of `split_sentences`; the annotators a request names
      are not modelled. */
  type Server = string -> Result<seq<Sentence>>

  // ---------------------------------------------------------------------------
  // Flattening tokens

  /** Each sentence's token list, in sentence order. */
  function TokenLists(doc: seq<Sentence>): (r: seq<seq<Token>>)
    ensures |r| == |doc|
    ensures forall i :: 0 <= i < |doc| ==> r[i] == doc[i].tokens
  {
    seq(|doc|, i requires 0 <= i < |doc| => doc[i].tokens)
  }

  /** All tokens, sentence after sentence: the order of the two nested `for` loops. */
  function AllTokens(doc: seq<Sentence>): seq<Token> {
    Flatten(TokenLists(doc))
  }

  /** Where sentence `i`'s tokens start among all tokens. */
  function Offset(doc: seq<Sentence>, i: nat): nat
    requires i <= |doc|
  {
    |Flatten(TokenLists(doc)[..i])|
  }

  /** The tokens' words as the server sent them. */
  function RawWords(toks: seq<Token>): (r: seq<string>)
    ensures |r| == |toks|
    ensures forall k :: 0 <= k < |toks| ==> r[k] == toks[k].word
  {
    seq(|toks|, k requires 0 <= k < |toks| => toks[k].word)
  }

  /** The tokens' words with every whitespace character removed. */
  function StrippedWords(toks: seq<Token>): (r: seq<string>)
    ensures |r| == |toks|
    ensures forall k :: 0 <= k < |toks| ==> r[k] == RemoveSpaces(toks[k].word)
  {
    seq(|toks|, k requires 0 <= k < |toks| => RemoveSpaces(toks[k].word))
  }

  function Tags(toks: seq<Token>): (r: seq<string>)
    ensures |r| == |toks|
    ensures forall k :: 0 <= k < |toks| ==> r[k] == toks[k].pos
  {
    seq(|toks|, k requires 0 <= k < |toks| => toks[k].pos)
  }

  // ---------------------------------------------------------------------------
  // `parse`

  /** `parse` of src/authorclustering/corenlp.py: whitespace-only text gives two empty
      lists without a request; otherwise the words (whitespace removed) and tags of all
      tokens, or the server's failure. */
  function Parse(server: Server, text: string): (r: Result<(seq<string>, seq<string>)>)
    ensures IsBlank(text) ==> r == Success(([], []))
    ensures !IsBlank(text) ==> (r.Failure? <==> server(text).Failure?)
    ensures r.Success? ==> |r.value.0| == |r.value.1|
    ensures r.Success? ==> forall k :: 0 <= k < |r.value.0| ==> NoSpace(r.value.0[k])
  {
    StripEmptyIffBlank(text);
    if Strip(text) == "" then Success(([], []))
    else
      var doc :- server(text);
      var toks := AllTokens(doc);
      Success((StrippedWords(toks), Tags(toks)))
  }

  /** `parse` of src/corenlp.py: always asks the server, and keeps words as sent: one
      word and one tag per token of the answer, in token order, nothing stripped. */
  function SrcParse(server: Server, text: string): (r: Result<(seq<string>, seq<string>)>)
    ensures r.Failure? <==> server(text).Failure?
    ensures r.Success? ==> |r.value.0| == |r.value.1|
    ensures r.Success? ==> |r.value.0| == |AllTokens(server(text).value)|
    ensures r.Success? ==> forall k :: 0 <= k < |r.value.0| ==>
      r.value.0[k] == AllTokens(server(text).value)[k].word && r.value.1[k] == AllTokens(server(text).value)[k].pos
  {
    var doc :- server(text);
    var toks := AllTokens(doc);
    Success((RawWords(toks), Tags(toks)))
  }

  /** The token at position `j` of sentence `i` is found at `Offset(doc, i) + j` among all
      tokens: words and tags come out sentence by sentence, token by token. */
  lemma ParseOrder(server: Server, text: string, doc: seq<Sentence>, i: nat, j: nat)
    requires !IsBlank(text) && server(text) == Success(doc)
    requires i < |doc| && j < |doc[i].tokens|
    ensures Parse(server, text).Success?
    ensures Offset(doc, i) + j < |Parse(server, text).value.0|
    ensures Parse(server, text).value.0[Offset(doc, i) + j] == RemoveSpaces(doc[i].tokens[j].word)
    ensures Parse(server, text).value.1[Offset(doc, i) + j] == doc[i].tokens[j].pos
  {
    var toks := AllTokens(doc);
    ParseValue(server, text, doc);
    FlattenAt(TokenLists(doc), i, j);
    assert toks[Offset(doc, i) + j] == doc[i].tokens[j];
  }

  lemma ParseValue(server: Server, text: string, doc: seq<Sentence>)
    requires !IsBlank(text) && server(text) == Success(doc)
    ensures Parse(server, text) == Success((StrippedWords(AllTokens(doc)), Tags(AllTokens(doc))))
  {
    StripEmptyIffBlank(text);
  }

  /** On text that is not whitespace-only the two copies agree except that the
      src/authorclustering copy strips whitespace out of every word. */
  lemma ParseStripsSrcWords(server: Server, text: string)
    requires !IsBlank(text)
    ensures Parse(server, text).Success? <==> SrcParse(server, text).Success?
    ensures Parse(server, text).Success? ==>
      var (w, t) := Parse(server, text).value;
      var (w', t') := SrcParse(server, text).value;
      |w| == |w'| && t == t' && forall k :: 0 <= k < |w| ==> w[k] == RemoveSpaces(w'[k])
  {
    StripEmptyIffBlank(text);
  }

  /** The src/corenlp.py copy puts token `j` of sentence `i` at its running offset,
      with the word exactly as the server sent it. */
  lemma SrcParseOrder(server: Server, text: string, doc: seq<Sentence>, i: nat, j: nat)
    requires server(text) == Success(doc)
    requires i < |doc| && j < |doc[i].tokens|
    ensures SrcParse(server, text).Success?
    ensures Offset(doc, i) + j < |SrcParse(server, text).value.0|
    ensures SrcParse(server, text).value.0[Offset(doc, i) + j] == doc[i].tokens[j].word
    ensures SrcParse(server, text).value.1[Offset(doc, i) + j] == doc[i].tokens[j].pos
  {
    FlattenAt(TokenLists(doc), i, j);
  }

  /** Only the src/authorclustering copy short-circuits: on whitespace-only text it
      succeeds however the server behaves, while the src copy reports the failure. */
  lemma BlankParseSkipsServer(server: Server, text: string)
    requires IsBlank(text) && server(text).Failure?
    ensures Parse(server, text) == Success(([], []))
    ensures SrcParse(server, text).Failure?
  {
  }

  // ---------------------------------------------------------------------------
  // `split_sentences`

  predicate NoNewline(s: string) {
    forall i :: 0 <= i < |s| ==> s[i] != '\n'
  }

  /** `text.replace('\n', '')`. */
  function RemoveNewlines(s: string): (r: string)
    ensures NoNewline(r)
    ensures |r| <= |s|
    ensures NoNewline(s) ==> r == s
    decreases |s|
  {
    if |s| == 0 then ""
    else
      var init := RemoveNewlines(s[..|s| - 1]);
      if s[|s| - 1] == '\n' then init else init + [s[|s| - 1]]
  }

  /** Removing newlines from two pieces is removing them from the whole. */
  lemma {:induction false} RemoveNewlinesSplice(a: string, b: string)
    ensures RemoveNewlines(a + b) == RemoveNewlines(a) + RemoveNewlines(b)
    decreases |b|
  {
    if |b| == 0 {
      assert a + b == a;
    } else {
      var b' := b[..|b| - 1];
      RemoveNewlinesSplice(a, b');
      assert (a + b)[..|a + b| - 1] == a + b';
    }
  }

  /** `text[start_index:end_index]` for one sentence, from its first token's begin offset
      to its last token's end offset. */
  function Span(t: string, s: Sentence): (r: string)
    requires |s.tokens| > 0
    ensures |r| <= |t|
  {
    PySlice(t, s.tokens[0].begin, s.tokens[|s.tokens| - 1].end)
  }

  /** The sentences of an answer, or an IndexError when one has no token
      (`sentence['tokens'][0]` of an empty list). */
  function Spans(t: string, doc: seq<Sentence>): (r: Result<seq<string>>)
    ensures r.Success? <==> forall i :: 0 <= i < |doc| ==> |doc[i].tokens| > 0
    ensures r.Failure? ==> r.error == IndexError
    ensures r.Success? ==> |r.value| == |doc|
    ensures r.Success? ==> forall i :: 0 <= i < |doc| ==> r.value[i] == Span(t, doc[i])
  {
    if exists i :: 0 <= i < |doc| && |doc[i].tokens| == 0 then Failure(IndexError)
    else Success(seq(|doc|, i requires 0 <= i < |doc| => Span(t, doc[i])))
  }

  /** `split_sentences`: newlines are removed first; a whitespace-only remainder gives no
      sentence and no request; otherwise one piece of the newline-free text per sentence. */
  function SplitSentences(server: Server, text: string): (r: Result<seq<string>>)
    ensures IsBlank(RemoveNewlines(text)) ==> r == Success([])
    ensures !IsBlank(RemoveNewlines(text)) ==>
      (r.Failure? <==> server(RemoveNewlines(text)).Failure? || Spans(RemoveNewlines(text), server(RemoveNewlines(text)).value).Failure?)
    ensures r.Success? ==> forall i :: 0 <= i < |r.value| ==> IsSlice(r.value[i], RemoveNewlines(text))
    ensures r.Success? ==> forall i :: 0 <= i < |r.value| ==> NoNewline(r.value[i])
    ensures !IsBlank(RemoveNewlines(text)) && r.Success? ==>
      && server(RemoveNewlines(text)).Success?
      && |r.value| == |server(RemoveNewlines(text)).value|
      && forall i :: 0 <= i < |r.value| ==>
        |server(RemoveNewlines(text)).value[i].tokens| > 0
        && r.value[i] == Span(RemoveNewlines(text), server(RemoveNewlines(text)).value[i])
  {
    var t := RemoveNewlines(text);
    StripEmptyIffBlank(t);
    if Strip(t) == "" then Success([])
    else
      var doc :- server(t);
      var r := Spans(t, doc);
      if r.Success? then
        forall i | 0 <= i < |r.value|
          ensures IsSlice(r.value[i], t) && NoNewline(r.value[i])
        {
          SpanIsSlice(t, doc[i]);
        }
        r
      else r
  }

  /** `x` is `t[a:b]` for some bounds within `t`. */
  predicate IsSlice(x: string, t: string) {
    exists a, b :: 0 <= a <= b <= |t| && x == t[a..b]
  }

  lemma SpanIsSlice(t: string, s: Sentence)
    requires |s.tokens| > 0 && NoNewline(t)
    ensures IsSlice(Span(t, s), t) && NoNewline(Span(t, s))
  {
    var a := Clamp(s.tokens[0].begin, |t|);
    var b := Clamp(s.tokens[|s.tokens| - 1].end, |t|);
    var x := Span(t, s);
    if a <= b {
      assert x == t[a..b];
    } else {
      assert x == t[0..0];
    }
    forall i | 0 <= i < |x|
      ensures x[i] != '\n'
    {
      assert x[i] in t;
    }
  }

  /** Offsets that tile a text: every sentence has tokens, offsets lie inside the text,
      and each sentence starts where the previous one ends. */
  predicate Tiled(t: string, doc: seq<Sentence>) {
    && (forall i :: 0 <= i < |doc| ==> |doc[i].tokens| > 0)
    && (forall i :: 0 <= i < |doc| ==> 0 <= First(doc[i]) <= Last(doc[i]) <= |t|)
    && (forall i :: 0 < i < |doc| ==> First(doc[i]) == Last(doc[i - 1]))
  }

  function First(s: Sentence): int
    requires |s.tokens| > 0
  {
    s.tokens[0].begin
  }

  function Last(s: Sentence): int
    requires |s.tokens| > 0
  {
    s.tokens[|s.tokens| - 1].end
  }

  /** When the server's sentences tile the text, the pieces put back together give the
      text from the first sentence's start to the last sentence's end. */
  lemma {:induction false} TiledSpansConcat(t: string, doc: seq<Sentence>)
    requires |doc| > 0 && Tiled(t, doc)
    ensures Spans(t, doc).Success?
    ensures First(doc[0]) <= Last(doc[|doc| - 1])
    ensures Concat(Spans(t, doc).value) == t[First(doc[0])..Last(doc[|doc| - 1])]
    decreases |doc|
  {
    var n := |doc|;
    var r := Spans(t, doc).value;
    if n > 1 {
      var init := doc[..n - 1];
      TiledInit(t, doc, init);
      TiledSpansConcat(t, init);
      var ri := Spans(t, init).value;
      SpansSnoc(t, doc, init);
      ConcatSnoc(ri, r[n - 1]);
      TiledJoin(t, First(doc[0]), Last(doc[n - 2]), Last(doc[n - 1]), Concat(ri), r[n - 1]);
    } else {
      assert r == [] + [r[0]];
      ConcatSnoc([], r[0]);
    }
  }

  lemma TiledInit(t: string, doc: seq<Sentence>, init: seq<Sentence>)
    requires |doc| > 1 && Tiled(t, doc) && init == doc[..|doc| - 1]
    ensures Tiled(t, init)
    ensures init[0] == doc[0] && init[|init| - 1] == doc[|doc| - 2]
    ensures First(doc[|doc| - 1]) == Last(doc[|doc| - 2])
  {
    forall i | 0 < i < |init|
      ensures First(init[i]) == Last(init[i - 1])
    {
      assert init[i] == doc[i] && init[i - 1] == doc[i - 1];
    }
  }

  lemma SpansSnoc(t: string, doc: seq<Sentence>, init: seq<Sentence>)
    requires |doc| > 1 && init == doc[..|doc| - 1]
    requires forall i :: 0 <= i < |doc| ==> |doc[i].tokens| > 0
    ensures Spans(t, doc).Success? && Spans(t, init).Success?
    ensures Spans(t, doc).value == Spans(t, init).value + [Span(t, doc[|doc| - 1])]
  {
    assert forall i :: 0 <= i < |init| ==> init[i] == doc[i];
  }

  lemma TiledJoin(t: string, a: int, m: int, b: int, x: string, y: string)
    requires 0 <= a <= m <= b <= |t|
    requires x == t[a..m] && y == PySlice(t, m, b)
    ensures x + y == t[a..b]
  {
  }

  // ---------------------------------------------------------------------------
  // The server URL of src/corenlp.py

  /** `StanfordCoreNLP.__init__` of src/corenlp.py: one trailing `/` is dropped;
      `server_url[-1]` of an empty URL is an IndexError. */
  function TrimTrailingSlash(url: string): (r: Result<string>)
    ensures r.Failure? <==> url == ""
    ensures r.Failure? ==> r.error == IndexError
    ensures r.Success? ==> url == r.value || url == r.value + "/"
    ensures r.Success? ==> (r.value == url <==> url[|url| - 1] != '/')
  {
    var last :- PyIndex(url, -1);
    if last == '/' then Success(PySlice(url, 0, -1)) else Success(url)
  }

  /** Only one slash is removed: a URL ending in two keeps the second-to-last. */
  lemma TrimOnlyOneSlash(url: string)
    ensures TrimTrailingSlash(url + "//") == Success(url + "/")
  {
    var u := url + "//";
    assert PySlice(u, 0, -1) == u[..|u| - 1];
    assert u[..|u| - 1] == url + "/";
  }
}
