/**
  The text extraction of `fetchAndDecode` (src/ai/flows/solve-quiz-flow.ts):
  take the body of the first `<script>...</script>` block; inside it, take the
  argument of the first `atob(`...`)` call and base64-decode it; when either
  step finds nothing, keep the fetched page as it is.
*/
module PageExtraction {
  import opened Wrappers
  import opened TextSearch
  import Base64

  const ScriptOpen := "<script>"
  const ScriptClose := "</script>"
  const CallOpen := "atob(`"
  const CallClose := "`)"

  /** Log lines written while extracting. */
  const FoundScriptMsg := "Found script tag."
  const FoundCallMsg := "Found atob() call, decoding content."
  const RawPageMsg := "No base64 content found, returning raw HTML."

  /** A match of a regular expression, from the start of its opening text to the start of its closing text. */
  datatype Span = Span(start: nat, end: nat)

  /** The script pattern `<script>([\s\S]*?)<\/script>` matches from an opening tag at `i` to a closing tag at `j`. */
  predicate IsScriptMatch(html: string, i: nat, j: nat)
  {
    At(html, ScriptOpen, i) && i + |ScriptOpen| <= j && At(html, ScriptClose, j)
  }

  /** The match `html.match` returns: the leftmost start, and for it the nearest closing tag (the group is lazy). */
  function FirstScript(html: string): (r: Option<Span>)
    ensures r.Some? ==> IsScriptMatch(html, r.value.start, r.value.end)
    ensures r.Some? ==> forall i, j :: IsScriptMatch(html, i, j) ==>
      r.value.start < i || (r.value.start == i && r.value.end <= j)
    ensures r.None? ==> forall i, j :: !IsScriptMatch(html, i, j)
  {
    match Find(html, ScriptOpen, 0)
    case None => None
    case Some(i) =>
      match Find(html, ScriptClose, i + |ScriptOpen|)
      case None => None
      case Some(j) => Some(Span(i, j))
  }

  /**
    The call pattern atob\(`([^`]+)`\) matches from `atob(` at `k` to the
    closing backtick at `m`: a non-empty run without backticks, then a backtick
    and a closing parenthesis.
  */
  predicate IsCallMatch(s: string, k: nat, m: nat)
  {
    && At(s, CallOpen, k)
    && k + |CallOpen| < m
    && At(s, CallClose, m)
    && Lacks(s[k + |CallOpen| .. m], '`')
  }

  /** For a given start the call pattern can end in one place only: at the first backtick. */
  lemma CallMatchUnique(s: string, k: nat, m: nat, m': nat)
    requires IsCallMatch(s, k, m) && IsCallMatch(s, k, m')
    ensures m == m'
  {
    InsideOccurrence(s, CallClose, m, m);
    InsideOccurrence(s, CallClose, m', m');
  }

  /**
    Where a match of the call pattern starting at `k` ends, if one does: the
    greedy run `[^`]+` stops at the first backtick, which must come after at
    least one character and be followed by `)`.
  */
  function CallEndingAt(s: string, k: nat): (r: Option<nat>)
    requires At(s, CallOpen, k)
    ensures r.Some? ==> IsCallMatch(s, k, r.value)
    ensures r.None? ==> forall m :: !IsCallMatch(s, k, m)
  {
    match FindChar(s, '`', k + |CallOpen|)
    case None =>
      assert forall m :: !IsCallMatch(s, k, m) by {
        forall m: nat | IsCallMatch(s, k, m) ensures false {
          InsideOccurrence(s, CallClose, m, m);
        }
      }
      None
    case Some(m) =>
      if k + |CallOpen| < m && At(s, CallClose, m) then Some(m)
      else
        assert forall m' :: !IsCallMatch(s, k, m') by {
          forall m': nat | IsCallMatch(s, k, m') ensures false {
            InsideOccurrence(s, CallClose, m', m');
          }
        }
        None
  }

  /** `r` is the leftmost call match starting at or after `from`, or `None` when there is none. */
  ghost predicate IsLeftmostCall(s: string, from: nat, r: Option<Span>)
  {
    && (r.Some? ==> from <= r.value.start && IsCallMatch(s, r.value.start, r.value.end))
    && (r.Some? ==> forall k, m :: from <= k && IsCallMatch(s, k, m) ==> r.value.start <= k)
    && (r.None? ==> forall k, m :: from <= k ==> !IsCallMatch(s, k, m))
  }

  /** Where the opening `atob(`` occurs nowhere from `from` on, no call match starts there. */
  lemma NoOpenNoCall(s: string, from: nat)
    requires Find(s, CallOpen, from).None?
    ensures IsLeftmostCall(s, from, None)
  {
  }

  /** The first opening from `from` that closes properly is the leftmost match. */
  lemma FirstOpenCloses(s: string, from: nat, k: nat, m: nat)
    requires Find(s, CallOpen, from) == Some(k)
    requires CallEndingAt(s, k) == Some(m)
    ensures IsLeftmostCall(s, from, Some(Span(k, m)))
  {
  }

  /** When the first opening from `from` does not close, the leftmost match from `from` is the one after it. */
  lemma FirstOpenFails(s: string, from: nat, k: nat, r: Option<Span>)
    requires Find(s, CallOpen, from) == Some(k)
    requires CallEndingAt(s, k).None?
    requires IsLeftmostCall(s, k + 1, r)
    ensures IsLeftmostCall(s, from, r)
  {
    assert forall k', m :: from <= k' <= k ==> !IsCallMatch(s, k', m);
  }

  /**
    The leftmost match of the call pattern that starts at or after `from`: it
    finds a match, the leftmost one, and reports none only when there is none.
  */
  function FindCall(s: string, from: nat): (r: Option<Span>)
    ensures IsLeftmostCall(s, from, r)
    decreases |s| - from
  {
    match Find(s, CallOpen, from)
    case None =>
      NoOpenNoCall(s, from);
      None
    case Some(k) =>
      match CallEndingAt(s, k)
      case Some(m) =>
        FirstOpenCloses(s, from, k, m);
        Some(Span(k, m))
      case None =>
        var r := FindCall(s, k + 1);
        FirstOpenFails(s, from, k, r);
        r
  }

  /** What the first script block yields. */
  datatype Extraction =
    | NoScriptContent            // no script block, or an empty one
    | ScriptWithoutCall          // a non-empty script block without a qualifying call
    | EmbeddedCall(argument: string)

  /** The second level: the call pattern inside a script body. */
  function ClassifyScript(body: string): (e: Extraction)
    ensures e.NoScriptContent? <==> body == ""
    ensures e.ScriptWithoutCall? <==> body != "" && forall k, m :: !IsCallMatch(body, k, m)
    ensures e.EmbeddedCall? ==> |e.argument| > 0 && Lacks(e.argument, '`')
    ensures e.EmbeddedCall? ==> exists c :: IsLeftmostCall(body, 0, Some(c)) && e.argument == body[c.start + |CallOpen| .. c.end]
  {
    if body == "" then NoScriptContent
    else
      match FindCall(body, 0)
      case None => ScriptWithoutCall
      case Some(c) => EmbeddedCall(body[c.start + |CallOpen| .. c.end])
  }

  /** The first level: only the first script block is ever looked at. */
  function Extract(html: string): Extraction
  {
    match FirstScript(html)
    case None => NoScriptContent
    case Some(sp) => ClassifyScript(html[sp.start + |ScriptOpen| .. sp.end])
  }

  /**
    The abstract text steps: UTF-8 decoding of bytes into a string, and the
    decoding the runtime applies to an argument that is not a strict base64
    string (it skips unknown characters and accepts missing padding).
  */
  datatype TextCodec = TextCodec(utf8: seq<Base64.byte> -> string, lenientBase64: string -> seq<Base64.byte>)

  /** `Buffer.from(arg, 'base64')`: exact for a well-formed argument, lenient otherwise. */
  function BufferBase64(arg: string, codec: TextCodec): (bytes: seq<Base64.byte>)
    ensures forall b :: Base64.Encode(b) == arg ==> bytes == b
  {
    match Base64.Decode(arg)
    case Some(b) =>
      assert forall b' :: Base64.Encode(b') == arg ==> b' == b by {
        forall b' | Base64.Encode(b') == arg ensures b' == b {
          Base64.DecodeIffEncode(arg, b');
        }
      }
      b
    case None =>
      assert forall b' :: Base64.Encode(b') != arg by {
        forall b' ensures Base64.Encode(b') != arg {
          Base64.DecodeIffEncode(arg, b');
        }
      }
      codec.lenientBase64(arg)
  }

  /** The text `fetchAndDecode` returns for a fetched page. */
  function DecodedText(html: string, codec: TextCodec): string
  {
    match Extract(html)
    case EmbeddedCall(arg) => codec.utf8(BufferBase64(arg, codec))
    case _ => html
  }

  /** The log lines `fetchAndDecode` writes between fetching and returning. */
  function ExtractionLog(html: string): seq<string>
  {
    match Extract(html)
    case NoScriptContent => [RawPageMsg]
    case ScriptWithoutCall => [FoundScriptMsg, RawPageMsg]
    case EmbeddedCall(_) => [FoundScriptMsg, FoundCallMsg]
  }

  /** With no script block anywhere in the page, the page comes back unchanged. */
  lemma NoScriptKeepsPage(html: string, codec: TextCodec)
    requires forall i, j :: !IsScriptMatch(html, i, j)
    ensures DecodedText(html, codec) == html
    ensures ExtractionLog(html) == [RawPageMsg]
  {
  }

  /** The three patterns begin with a character that occurs nowhere else in them. */
  lemma PatternsHeadUnique()
    ensures HeadUnique(ScriptOpen) && HeadUnique(ScriptClose) && HeadUnique(CallOpen)
  {
  }

  /**
    Only the first script block is inspected: the leftmost `<script>` is the
    one after `head`, its block ends at the first `</script>` after it, and
    whatever follows, other script blocks included, has no say in the outcome.
  */
  lemma FirstScriptDecides(head: string, body: string, tail: string)
    requires Absent(head, ScriptOpen) && Absent(body, ScriptClose)
    ensures Extract(head + ScriptOpen + body + ScriptClose + tail) == ClassifyScript(body)
  {
    FirstScriptSpan(head, body, tail);
    BlockBody(head, body, tail);
    ClassifiedFromSpan(head + ScriptOpen + body + ScriptClose + tail, |head|, |head| + |ScriptOpen| + |body|);
  }

  /** Once the first match is known, the extraction is the classification of its group. */
  lemma ClassifiedFromSpan(html: string, i: nat, j: nat)
    requires FirstScript(html) == Some(Span(i, j))
    ensures i + |ScriptOpen| <= j <= |html|
    ensures Extract(html) == ClassifyScript(html[i + |ScriptOpen| .. j])
  {
  }

  /**
    The group of that match is `body`. Like `NoEmptyEnds` below and
    `TextSearch.AssociateFive`, this sequence fact is a lemma of its own so that
    it is proved once in a small context, not inside the larger proofs that use it.
  */
  lemma BlockBody(head: string, body: string, tail: string)
    ensures (head + ScriptOpen + body + ScriptClose + tail)[|head| + |ScriptOpen| .. |head| + |ScriptOpen| + |body|] == body
  {
    var html := head + ScriptOpen + body + ScriptClose + tail;
    assert html[|head| + |ScriptOpen| .. |head| + |ScriptOpen| + |body|] == (head + ScriptOpen + body)[|head| + |ScriptOpen| ..];
  }

  /** The first script match runs from the tag after `head` to the closing tag after `body`. */
  lemma FirstScriptSpan(head: string, body: string, tail: string)
    requires Absent(head, ScriptOpen) && Absent(body, ScriptClose)
    ensures FirstScript(head + ScriptOpen + body + ScriptClose + tail)
      == Some(Span(|head|, |head| + |ScriptOpen| + |body|))
  {
    PatternsHeadUnique();
    FirstDelimited(head, ScriptOpen, body, ScriptClose, tail);
  }

  /** A non-empty first script block without a call match leaves the page as it is, after logging the script. */
  lemma ScriptWithoutCallKeepsPage(head: string, body: string, tail: string, codec: TextCodec)
    requires Absent(head, ScriptOpen) && Absent(body, ScriptClose)
    requires body != "" && forall k, m :: !IsCallMatch(body, k, m)
    ensures var html := head + ScriptOpen + body + ScriptClose + tail;
      && DecodedText(html, codec) == html
      && ExtractionLog(html) == [FoundScriptMsg, RawPageMsg]
  {
    FirstScriptDecides(head, body, tail);
  }

  /** An empty first script block leaves the page as it is and logs only that no content was found. */
  lemma EmptyScriptKeepsPage(head: string, tail: string, codec: TextCodec)
    requires Absent(head, ScriptOpen)
    ensures var html := head + ScriptOpen + ScriptClose + tail;
      && DecodedText(html, codec) == html
      && ExtractionLog(html) == [RawPageMsg]
  {
    LacksHeadAbsent("", ScriptClose);
    FirstScriptDecides(head, "", tail);
    assert head + ScriptOpen + "" == head + ScriptOpen;
  }

  /** The call written out as `pre`, the opening, `arg`, the closing and `post` is a match. */
  lemma WrittenCallMatches(pre: string, arg: string, post: string)
    requires |arg| > 0 && Lacks(arg, '`')
    ensures IsCallMatch(pre + CallOpen + arg + CallClose + post, |pre|, |pre| + |CallOpen| + |arg|)
  {
    var body := pre + CallOpen + arg + CallClose + post;
    var k, m := |pre|, |pre| + |CallOpen| + |arg|;
    assert body[k..k + |CallOpen|] == CallOpen;
    assert body[m..m + |CallClose|] == CallClose;
    assert body[k + |CallOpen| .. m] == arg;
  }

  /** Without an opening `atob(`` in `pre`, no call match can start inside `pre`. */
  lemma NoCallStartsInPrefix(pre: string, rest: string)
    requires Absent(pre, CallOpen) && |rest| > 0 && rest[0] == CallOpen[0]
    ensures forall k: nat, m: nat :: k < |pre| ==> !IsCallMatch(pre + rest, k, m)
  {
    PatternsHeadUnique();
    forall k: nat, m: nat | k < |pre| && IsCallMatch(pre + rest, k, m) ensures false {
      NoStraddle(pre, rest, CallOpen, k);
    }
  }

  /** A script body whose first opening `atob(`` starts the call written out yields that call's argument. */
  lemma CallArgumentFound(pre: string, arg: string, post: string)
    requires |arg| > 0 && Lacks(arg, '`') && Absent(pre, CallOpen)
    ensures ClassifyScript(pre + CallOpen + arg + CallClose + post) == EmbeddedCall(arg)
  {
    var rest := CallOpen + arg + CallClose + post;
    var body := pre + CallOpen + arg + CallClose + post;
    assert body == pre + rest;
    var k, m := |pre|, |pre| + |CallOpen| + |arg|;
    WrittenCallMatches(pre, arg, post);
    NoCallStartsInPrefix(pre, rest);
    var c := FindCall(body, 0).value;
    CallMatchUnique(body, k, c.end, m);
    assert body[k + |CallOpen| .. m] == arg;
  }

  /** An encoding holds neither a backtick nor a `<`, so it cannot end a call or a script block early. */
  lemma EncodingIsInert(bytes: seq<Base64.byte>)
    ensures Lacks(Base64.Encode(bytes), '`') && Lacks(Base64.Encode(bytes), '<')
  {
    var e := Base64.Encode(bytes);
    forall p | 0 <= p < |e| ensures e[p] != '`' && e[p] != '<' {
      assert Base64.IsEncodingChar(e[p]);
    }
  }

  /**
    A page whose first script block embeds `atob(`E`)`, E the base64 encoding
    of some non-empty bytes, decodes to the UTF-8 reading of exactly those
    bytes: whatever precedes the block (other tags included) as long as it
    opens no script, whatever script code surrounds the call as long as no
    `atob(`` comes first and no `</script>` ends the block early, and
    whatever follows.
  */
  lemma EmbeddedPayloadRecovered(head: string, pre: string, bytes: seq<Base64.byte>, post: string, tail: string, codec: TextCodec)
    requires |bytes| > 0
    requires Absent(head, ScriptOpen) && Absent(pre, CallOpen)
    requires Absent(pre + CallOpen + Base64.Encode(bytes) + CallClose + post, ScriptClose)
    ensures DecodedText(head + ScriptOpen + (pre + CallOpen + Base64.Encode(bytes) + CallClose + post) + ScriptClose + tail, codec)
      == codec.utf8(bytes)
    ensures ExtractionLog(head + ScriptOpen + (pre + CallOpen + Base64.Encode(bytes) + CallClose + post) + ScriptClose + tail)
      == [FoundScriptMsg, FoundCallMsg]
  {
    EncodingIsInert(bytes);
    Base64.DecodeEncode(bytes);
    WellFormedPayloadRecovered(head, pre, Base64.Encode(bytes), bytes, post, tail, codec);
  }

  /** EmbeddedPayloadRecovered for any call argument that is the strict base64 form of `bytes`. */
  lemma WellFormedPayloadRecovered(head: string, pre: string, arg: string, bytes: seq<Base64.byte>, post: string, tail: string, codec: TextCodec)
    requires |arg| > 0 && Lacks(arg, '`') && Base64.Decode(arg) == Some(bytes)
    requires Absent(head, ScriptOpen) && Absent(pre, CallOpen)
    requires Absent(pre + CallOpen + arg + CallClose + post, ScriptClose)
    ensures DecodedText(head + ScriptOpen + (pre + CallOpen + arg + CallClose + post) + ScriptClose + tail, codec)
      == codec.utf8(bytes)
    ensures ExtractionLog(head + ScriptOpen + (pre + CallOpen + arg + CallClose + post) + ScriptClose + tail)
      == [FoundScriptMsg, FoundCallMsg]
  {
    EmbeddedCallExtracted(head, pre, arg, post, tail);
  }

  /** The extraction step of EmbeddedPayloadRecovered, for any non-empty argument free of backticks. */
  lemma EmbeddedCallExtracted(head: string, pre: string, arg: string, post: string, tail: string)
    requires |arg| > 0 && Lacks(arg, '`')
    requires Absent(head, ScriptOpen) && Absent(pre, CallOpen)
    requires Absent(pre + CallOpen + arg + CallClose + post, ScriptClose)
    ensures Extract(head + ScriptOpen + (pre + CallOpen + arg + CallClose + post) + ScriptClose + tail) == EmbeddedCall(arg)
  {
    var body := pre + CallOpen + arg + CallClose + post;
    FirstScriptDecides(head, body, tail);
    CallArgumentFound(pre, arg, post);
  }

  /*
    The worked example. Its literals (the bytes, the encoding, the page and the
    text) are parameters pinned down by `requires` rather than local variables:
    the solver then handles each one as a single name, and unfolds a long
    literal only in the small lemma that needs it.
  */

  /** The encoding of the JSON text {"q":1}, one group of three bytes at a time. */
  lemma WorkedExampleEncoding(b: seq<Base64.byte>)
    requires b == [123, 34, 113, 34, 58, 49, 125]
    ensures Base64.Encode(b) == "eyJxIjoxfQ=="
  {
    var tail := b[6..];
    assert tail == [125];
    assert Base64.Encode(tail) == "fQ==";
    var mid := b[3..];
    assert mid[3..] == tail;
    assert Base64.EncodeTriple(mid[0], mid[1], mid[2]) == "Ijox";
    assert b[3..] == mid;
    assert Base64.EncodeTriple(b[0], b[1], b[2]) == "eyJx";
  }

  /** Every byte is below 0x80: the byte string is ASCII text. */
  predicate IsAscii(bytes: seq<Base64.byte>)
  {
    forall i :: 0 <= i < |bytes| ==> bytes[i] < 0x80
  }

  /** The characters whose codes are the given bytes. */
  function AsciiText(bytes: seq<Base64.byte>): (t: string)
    ensures |t| == |bytes| && forall i :: 0 <= i < |bytes| ==> t[i] as int == bytes[i]
  {
    seq(|bytes|, i requires 0 <= i < |bytes| => bytes[i] as char)
  }

  /** UTF-8 reads an ASCII byte string as the characters with those codes, as every UTF-8 decoder does. */
  ghost predicate ReadsAscii(codec: TextCodec)
  {
    forall bytes :: IsAscii(bytes) ==> codec.utf8(bytes) == AsciiText(bytes)
  }

  /** The worked example's bytes are the ASCII text {"q":1}. */
  lemma WorkedExampleText(json: seq<Base64.byte>, text: string)
    requires json == [123, 34, 113, 34, 58, 49, 125]
    requires text == "{\"q\":1}"
    ensures IsAscii(json) && AsciiText(json) == text
  {
  }

  /** The script body of the worked example holds no `</script>` and no `atob(`` before its call. */
  lemma WorkedExampleInert(pre: string, e: string, body: string)
    requires pre == "const x = " && e == "eyJxIjoxfQ=="
    requires body == pre + CallOpen + e + CallClose + ";"
    ensures Absent("", ScriptOpen) && Absent(pre, CallOpen) && Absent(body, ScriptClose)
  {
    LacksHeadAbsent("", ScriptOpen);
    LacksHeadAbsent(pre, CallOpen);
    LacksHeadAbsent(body, ScriptClose);
  }

  /**
    The page of the worked example: the payload `e` is the JSON text {"q":1}
    in base64, and a decoder that reads ASCII as UTF-8 does returns exactly
    that text.
  */
  lemma WorkedExamplePage(page: string, e: string, json: seq<Base64.byte>, text: string, codec: TextCodec)
    requires e == "eyJxIjoxfQ=="
    requires page == ScriptOpen + ("const x = " + CallOpen + e + CallClose + ";") + ScriptClose
    requires json == [123, 34, 113, 34, 58, 49, 125]
    requires text == "{\"q\":1}"
    requires ReadsAscii(codec)
    ensures DecodedText(page, codec) == codec.utf8(json) == text
    ensures ExtractionLog(page) == [FoundScriptMsg, FoundCallMsg]
  {
    WorkedExampleEncoding(json);
    var body := "const x = " + CallOpen + e + CallClose + ";";
    WorkedExampleInert("const x = ", e, body);
    EmbeddedPayloadRecovered("", "const x = ", json, ";", "", codec);
    NoEmptyEnds(ScriptOpen, body, ScriptClose);
    WorkedExampleText(json, text);
  }

  /** Empty strings at both ends of a concatenation change nothing. */
  lemma NoEmptyEnds(a: string, b: string, c: string)
    ensures "" + a + b + c + "" == a + b + c
  {
  }
}
