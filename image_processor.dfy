/**
 * The image-processing stage (lambda/image_processor.py): derive the S3 key,
 * strip a data-URL prefix, either trust an operator-supplied registration
 * number or scan the OCR lines for candidate numbers and pick the most
 * confident one, and fall back to a product name from the vision model.
 * S3, Textract, Bedrock and base64 decoding are collaborators given as
 * functions; every call made to S3, Textract or Bedrock is recorded.
 */
module ImageProcessor {
  import opened Wrappers
  import opened PyStrings
  import opened RegPatterns

  newtype byte = x: int | 0 <= x < 256

  // ---------------------------------------------------------------------
  // Collaborators

  /** The kinds of block Textract returns; only LINE blocks are scanned. */
  datatype BlockType = Page | Line | Word

  /** One Textract block; a missing `Text` reads as `''`, a missing
      `Confidence` as 0. */
  datatype Block = Block(blockType: BlockType, text: Option<string>, confidence: Option<real>)

  /** `detect_document_text`: the blocks it returned, or an exception. */
  datatype TextractOutcome = Detected(blocks: seq<Block>) | TextractFailed

  /** `invoke_model`: the text of the first content item, or an exception
      (service error, malformed body). */
  datatype BedrockOutcome = Completion(text: string) | BedrockFailed

  /** `put_object`: stored, or the message of the exception it raised. */
  datatype PutOutcome = Stored | PutFailed(message: string)

  /** A call made to a collaborator. */
  datatype Call =
    | PutObject(key: string, body: seq<byte>)
    | DetectDocumentText(key: string)
    | InvokeModel(image: seq<byte>)

  // ---------------------------------------------------------------------
  // store_image_in_s3: the key

  /** The S3 key the image is stored under. */
  function ImageKey(timestamp: string, verificationId: string): string {
    "images/" + timestamp + "_" + verificationId + ".jpg"
  }

  /** The key is `images/`, the timestamp, `_`, the id and `.jpg`, in that
      order, with nothing else in between. */
  lemma ImageKeyLayout(timestamp: string, verificationId: string)
    ensures var key := ImageKey(timestamp, verificationId);
      && |key| == |timestamp| + |verificationId| + 12
      && key[..7] == "images/"
      && key[7..7 + |timestamp|] == timestamp
      && key[7 + |timestamp|] == '_'
      && key[8 + |timestamp|..8 + |timestamp| + |verificationId|] == verificationId
      && key[|key| - 4..] == ".jpg"
  {
  }

  /** With timestamps free of `_` (ISO 8601 ones are), the key determines
      both the timestamp and the verification id. */
  lemma ImageKeyInjective(t1: string, id1: string, t2: string, id2: string)
    requires '_' !in t1 && '_' !in t2
    requires ImageKey(t1, id1) == ImageKey(t2, id2)
    ensures t1 == t2 && id1 == id2
  {
    var k := ImageKey(t1, id1);
    ImageKeyLayout(t1, id1);
    ImageKeyLayout(t2, id2);
  }

  // ---------------------------------------------------------------------
  // handler: the data-URL prefix

  /** `s.split(',')[1]` when `s` contains a comma, `s` otherwise. */
  function StripDataUrl(s: string): string {
    if ',' in s then SecondField(s, ',') else s
  }

  /** Without a comma the text is kept; with one, what is kept is the text
      between the first comma and the next one (or the end), so it holds no
      comma. */
  lemma StripDataUrlSpec(s: string)
    ensures ',' !in s ==> StripDataUrl(s) == s
    ensures ',' in s ==>
      var r := StripDataUrl(s);
      exists i :: 0 <= i < |s| && s[i] == ',' && ',' !in s[..i]
        && r <= s[i + 1..] && ',' !in r
        && (|r| == |s| - i - 1 || s[i + 1 + |r|] == ',')
  {
    if ',' in s {
      var i := IndexOf(s, ',');
      var r := StripDataUrl(s);
      var tail := s[i + 1..];
      assert r == BeforeFirst(tail, ',');
      assert r <= tail && ',' !in r;
      assert |r| < |tail| ==> tail[|r|] == ',' && tail[|r|] == s[i + 1 + |r|];
      assert 0 <= i < |s| && s[i] == ',' && ',' !in s[..i];
    }
  }

  // ---------------------------------------------------------------------
  // extract_nafdac_number_ocr: the candidate scan

  /** A possible registration number and the confidence of its line. */
  datatype Candidate = Candidate(number: string, confidence: real)

  function LineText(b: Block): string { b.text.GetOr("") }

  function LineConfidence(b: Block): real { b.confidence.GetOr(0.0) }

  /** The texts of the LINE blocks, in order (`all_text`). */
  function LineTexts(blocks: seq<Block>): seq<string> {
    if blocks == [] then []
    else
      var last := blocks[|blocks| - 1];
      LineTexts(blocks[..|blocks| - 1]) + (if last.blockType == Line then [LineText(last)] else [])
  }

  /** One candidate per match, in match order. */
  function HitCandidates(hits: seq<Hit>, conf: real): seq<Candidate> {
    if hits == [] then []
    else HitCandidates(hits[..|hits| - 1], conf) + [Candidate(Normalize(hits[|hits| - 1].group), conf)]
  }

  /** The candidates of one line: pattern by pattern, each in match order. */
  function PatternCandidates(ps: seq<Pattern>, text: string, conf: real): seq<Candidate> {
    if ps == [] then []
    else PatternCandidates(ps[..|ps| - 1], text, conf) + HitCandidates(FindIter(ps[|ps| - 1], text), conf)
  }

  /** The candidates of a LINE block (none for another block). */
  function CandidatesOf(b: Block): seq<Candidate> {
    if b.blockType == Line then PatternCandidates(Patterns, LineText(b), LineConfidence(b)) else []
  }

  /** All candidates (`nafdac_candidates`): line by line. */
  function BlockCandidates(blocks: seq<Block>): seq<Candidate> {
    if blocks == [] then []
    else BlockCandidates(blocks[..|blocks| - 1]) + CandidatesOf(blocks[|blocks| - 1])
  }

  /** The loops of `extract_nafdac_number_ocr`: over the blocks, appending
      each LINE block's text to `all_text` and its candidates to the list. */
  method ScanBlocks(blocks: seq<Block>) returns (allText: seq<string>, candidates: seq<Candidate>)
    ensures allText == LineTexts(blocks)
    ensures candidates == BlockCandidates(blocks)
  {
    allText, candidates := [], [];
    var b := 0;
    while b < |blocks|
      invariant 0 <= b <= |blocks|
      invariant allText == LineTexts(blocks[..b])
      invariant candidates == BlockCandidates(blocks[..b])
    {
      var block := blocks[b];
      assert blocks[..b + 1][..b] == blocks[..b];
      if block.blockType == Line {
        var text := LineText(block);
        allText := allText + [text];
        var lineCandidates := ScanLine(Patterns, text, LineConfidence(block));
        candidates := candidates + lineCandidates;
      }
      b := b + 1;
    }
    assert blocks[..b] == blocks;
  }

  /** The loop over the patterns (the five of `Patterns`) for one line: the
      candidates it appends. */
  method ScanLine(ps: seq<Pattern>, text: string, conf: real) returns (candidates: seq<Candidate>)
    ensures candidates == PatternCandidates(ps, text, conf)
  {
    candidates := [];
    var p := 0;
    while p < |ps|
      invariant 0 <= p <= |ps|
      invariant candidates == PatternCandidates(ps[..p], text, conf)
    {
      assert ps[..p + 1][..p] == ps[..p];
      var hitCandidates := AppendHits(FindIter(ps[p], text), conf);
      candidates := candidates + hitCandidates;
      p := p + 1;
    }
    assert ps[..p] == ps;
  }

  /** The loop over the matches of one pattern: one candidate per match, with
      the line's confidence. */
  method AppendHits(hits: seq<Hit>, conf: real) returns (candidates: seq<Candidate>)
    ensures candidates == HitCandidates(hits, conf)
  {
    candidates := [];
    var h := 0;
    while h < |hits|
      invariant 0 <= h <= |hits|
      invariant candidates == HitCandidates(hits[..h], conf)
    {
      assert hits[..h + 1][..h] == hits[..h];
      candidates := candidates + [Candidate(Normalize(hits[h].group), conf)];
      h := h + 1;
    }
    assert hits[..h] == hits;
  }

  /** Candidates keep line order: those of earlier blocks come first. */
  lemma {:induction false} BlockCandidatesAppend(a: seq<Block>, b: seq<Block>)
    ensures BlockCandidates(a + b) == BlockCandidates(a) + BlockCandidates(b)
    decreases |b|
  {
    if b != [] {
      var init := b[..|b| - 1];
      assert (a + b)[..|a + b| - 1] == a + init;
      BlockCandidatesAppend(a, init);
    } else {
      assert a + b == a;
    }
  }

  /** Within one line the order is pattern by pattern — letter code, digit
      code, NAFDAC, REG, NRN, as listed in `Patterns` — and, for each, match
      by match: the matches of pattern `i` follow those of every earlier
      pattern and precede those of every later one. */
  lemma LineCandidateOrder(b: Block, i: nat)
    requires b.blockType == Line && i < |Patterns|
    ensures var t, c := LineText(b), LineConfidence(b);
      BlockCandidates([b]) ==
        PatternCandidates(Patterns[..i], t, c)
        + (HitCandidates(FindIter(Patterns[i], t), c) + PatternCandidates(Patterns[i + 1..], t, c))
  {
    SingleBlockCandidates(b);
    SplitAround(Patterns, i);
    PatternOrder(Patterns[..i], Patterns[i], Patterns[i + 1..], LineText(b), LineConfidence(b));
  }

  lemma SingleBlockCandidates(b: Block)
    ensures BlockCandidates([b]) == CandidatesOf(b)
  {
    assert [b][..0] == [];
  }

  lemma SplitAround(ps: seq<Pattern>, i: nat)
    requires i < |ps|
    ensures ps == ps[..i] + [ps[i]] + ps[i + 1..]
  {
  }

  /** A pattern contributes its matches between those of the patterns
      before it and those of the patterns after it. */
  lemma PatternOrder(a: seq<Pattern>, p: Pattern, b: seq<Pattern>, t: string, c: real)
    ensures PatternCandidates(a + [p] + b, t, c) ==
      PatternCandidates(a, t, c) + (HitCandidates(FindIter(p, t), c) + PatternCandidates(b, t, c))
  {
    var x := HitCandidates(FindIter(p, t), c);
    PatternCandidatesAppend(a + [p], b, t, c);
    assert (a + [p])[..|a + [p]| - 1] == a && (a + [p])[|a + [p]| - 1] == p;
    assert PatternCandidates(a + [p], t, c) == PatternCandidates(a, t, c) + x;
    AppendAssoc(PatternCandidates(a, t, c), x, PatternCandidates(b, t, c));
  }

  /** The patterns are tried in order: the candidates of a list of patterns
      are those of its first part followed by those of the rest. */
  lemma {:induction false} PatternCandidatesAppend(a: seq<Pattern>, b: seq<Pattern>, t: string, c: real)
    ensures PatternCandidates(a + b, t, c) == PatternCandidates(a, t, c) + PatternCandidates(b, t, c)
    decreases |b|
  {
    if b != [] {
      var init, last := b[..|b| - 1], b[|b| - 1];
      assert (a + b)[..|a + b| - 1] == a + init && (a + b)[|a + b| - 1] == last;
      var x := HitCandidates(FindIter(last, t), c);
      assert PatternCandidates(a + b, t, c) == PatternCandidates(a + init, t, c) + x;
      PatternCandidatesAppend(a, init, t, c);
      AppendAssoc(PatternCandidates(a, t, c), PatternCandidates(init, t, c), x);
    } else {
      assert a + b == a;
    }
  }

  lemma AppendAssoc(x: seq<Candidate>, y: seq<Candidate>, z: seq<Candidate>)
    ensures (x + y) + z == x + (y + z)
  {
  }

  /** Every candidate made from well-formed matches is upper case and carries
      the confidence it was given. */
  lemma {:induction false} HitCandidatesShape(hits: seq<Hit>, conf: real)
    requires forall k :: 0 <= k < |hits| ==> AllCode(hits[k].group)
    ensures forall k :: 0 <= k < |HitCandidates(hits, conf)| ==>
      AllUpperCode(HitCandidates(hits, conf)[k].number) && HitCandidates(hits, conf)[k].confidence == conf
  {
    if hits != [] {
      HitCandidatesShape(hits[..|hits| - 1], conf);
      NormalizeUpper(hits[|hits| - 1].group);
    }
  }

  lemma {:induction false} PatternCandidatesShape(ps: seq<Pattern>, text: string, conf: real)
    ensures forall k :: 0 <= k < |PatternCandidates(ps, text, conf)| ==>
      AllUpperCode(PatternCandidates(ps, text, conf)[k].number)
      && PatternCandidates(ps, text, conf)[k].confidence == conf
  {
    if ps != [] {
      PatternCandidatesShape(ps[..|ps| - 1], text, conf);
      var hits := FindIter(ps[|ps| - 1], text);
      FindIterSound(ps[|ps| - 1], text);
      forall k | 0 <= k < |hits| ensures AllCode(hits[k].group) {
        assert MatchAt(ps[|ps| - 1], text, hits[k].start) == Some(hits[k]);
      }
      HitCandidatesShape(hits, conf);
    }
  }

  /** Every candidate is upper case (letters, digits and hyphens only) and
      carries the confidence of the LINE block it was found in. */
  lemma {:induction false} CandidatesShape(blocks: seq<Block>)
    ensures forall c :: c in BlockCandidates(blocks) ==>
      AllUpperCode(c.number)
      && exists i :: 0 <= i < |blocks| && blocks[i].blockType == Line && c.confidence == LineConfidence(blocks[i])
  {
    if blocks != [] {
      var init, last := blocks[..|blocks| - 1], blocks[|blocks| - 1];
      CandidatesShape(init);
      PatternCandidatesShape(Patterns, LineText(last), LineConfidence(last));
      forall c | c in BlockCandidates(blocks)
        ensures AllUpperCode(c.number)
        ensures exists i :: 0 <= i < |blocks| && blocks[i].blockType == Line && c.confidence == LineConfidence(blocks[i])
      {
        if c in BlockCandidates(init) {
          var i :| 0 <= i < |init| && init[i].blockType == Line && c.confidence == LineConfidence(init[i]);
          assert blocks[i] == init[i];
        } else {
          assert c in CandidatesOf(last);
          assert last == blocks[|blocks| - 1];
        }
      }
    }
  }

  // ---------------------------------------------------------------------
  // extract_nafdac_number_ocr: the selection

  /** Index `k` holds a candidate of maximal confidence, and no earlier
      candidate has that confidence (`max` keeps the first maximum). */
  predicate IsFirstMax(cs: seq<Candidate>, k: int) {
    && 0 <= k < |cs|
    && (forall j :: 0 <= j < |cs| ==> cs[j].confidence <= cs[k].confidence)
    && (forall j :: 0 <= j < k ==> cs[j].confidence < cs[k].confidence)
  }

  /** At most one index is the first maximum. */
  lemma FirstMaxUnique(cs: seq<Candidate>, k1: int, k2: int)
    requires IsFirstMax(cs, k1) && IsFirstMax(cs, k2)
    ensures k1 == k2
  {
    assert cs[k1].confidence == cs[k2].confidence;
  }

  /** `max(nafdac_candidates, key=lambda x: x['confidence'])`: scan left to
      right and replace the best only on a strictly greater confidence. */
  method SelectBest(cs: seq<Candidate>) returns (k: nat)
    requires |cs| > 0
    ensures IsFirstMax(cs, k)
  {
    k := 0;
    var i := 1;
    while i < |cs|
      invariant 1 <= i <= |cs| && k < i
      invariant forall j :: 0 <= j < i ==> cs[j].confidence <= cs[k].confidence
      invariant forall j :: 0 <= j < k ==> cs[j].confidence < cs[k].confidence
    {
      if cs[i].confidence > cs[k].confidence {
        k := i;
      }
      i := i + 1;
    }
  }

  // ---------------------------------------------------------------------
  // extract_product_name_with_bedrock: the post-processing

  predicate IsQuote(c: char) { c == '"' || c == '\'' }

  /** `.strip().strip('"\'')` of the model's reply. */
  function CleanedReply(text: string): string {
    Strip(Strip(text, IsSpace), IsQuote)
  }

  /** The product name: the first line of the cleaned reply, None when that
      line is empty or the call failed. */
  function ProductName(o: BedrockOutcome): Option<string> {
    match o
    case BedrockFailed => None
    case Completion(text) =>
      var name := BeforeFirst(CleanedReply(text), '\n');
      if name == "" then None else Some(name)
  }

  /** The name is exactly the first line of the cleaned reply: a non-empty
      prefix without newline, followed by a newline or the end; it does not
      begin with a quote. It is None exactly when that first line is empty,
      and always when the call failed. */
  lemma ProductNameFirstLine(o: BedrockOutcome)
    ensures o.BedrockFailed? ==> ProductName(o) == None
    ensures o.Completion? ==>
      var c, r := CleanedReply(o.text), ProductName(o);
      && (r.None? <==> c == "" || c[0] == '\n')
      && (r.Some? ==>
            && r.value != "" && '\n' !in r.value && r.value <= c
            && (|r.value| == |c| || c[|r.value|] == '\n')
            && !IsQuote(r.value[0]))
  {
    if o.Completion? {
      var c := CleanedReply(o.text);
      var n := BeforeFirst(c, '\n');
      StripSlice(Strip(o.text, IsSpace), IsQuote);
      if c != "" && c[0] == '\n' {
        assert n == "";
      }
      if n != "" {
        assert n[0] == c[0];
      }
    }
  }

  /** A reply with nothing to strip at either end keeps only its first line:
      `"Lisinopril 10mg Tablets\nTrust me"` gives `Lisinopril 10mg Tablets`
      (the dosage is not removed). */
  lemma ProductNameExample()
    ensures ProductName(Completion(ExampleName + "\n" + ExampleRest)) == Some(ExampleName)
  {
    assert ExampleName[0] == 'L' && ExampleRest[|ExampleRest| - 1] == 'e';
    FirstLineKept(ExampleName, ExampleRest);
  }

  const ExampleName := "Lisinopril 10mg Tablets"
  const ExampleRest := "Trust me"

  /** A reply `first + "\n" + rest` whose ends need no stripping gives `first`
      when `first` is a non-empty line. */
  lemma FirstLineKept(first: string, rest: string)
    requires first != [] && '\n' !in first
    requires !IsSpace(first[0]) && !IsQuote(first[0])
    requires rest != [] && !IsSpace(rest[|rest| - 1]) && !IsQuote(rest[|rest| - 1])
    ensures ProductName(Completion(first + "\n" + rest)) == Some(first)
  {
    var t := first + "\n" + rest;
    assert t[0] == first[0] && t[|t| - 1] == rest[|rest| - 1];
    StripEndsKept(t, IsSpace);
    StripEndsKept(t, IsQuote);
    BeforeFirstOf(first, '\n', rest);
  }

  /** Stripping a string whose ends are not `p`-characters changes nothing. */
  lemma StripEndsKept(s: string, p: char -> bool)
    requires s != [] && !p(s[0]) && !p(s[|s| - 1])
    ensures Strip(s, p) == s
  {
    assert RunFrom(s, 0, p) == 0;
    assert s[0..] == s;
  }

  // ---------------------------------------------------------------------
  // extract_nafdac_number_ocr

  /** What the OCR step hands back. */
  datatype OcrResult = OcrResult(
    nafdacNumber: Option<string>,
    confidence: Option<real>,
    allText: Option<string>,
    productName: Option<string>)

  /** The promise of `extract_nafdac_number_ocr` for key `key` and image
      bytes `data`: Textract is called once with the key; a failure gives
      all-None fields with empty text; otherwise the text is the line texts
      joined by spaces, and the most confident candidate (the first of equal
      ones) wins; without a candidate the vision model is asked, only when
      there are image bytes. */
  ghost predicate OcrSpec(key: string, data: seq<byte>, textract: string -> TextractOutcome,
                          bedrock: seq<byte> -> BedrockOutcome, r: OcrResult, calls: seq<Call>)
  {
    match textract(key)
    case TextractFailed =>
      r == OcrResult(None, None, Some(""), None) && calls == [DetectDocumentText(key)]
    case Detected(blocks) =>
      var cands := BlockCandidates(blocks);
      && r.allText == Some(Join(LineTexts(blocks), " "))
      && (cands != [] ==>
            && calls == [DetectDocumentText(key)]
            && r.productName == None
            && exists k :: IsFirstMax(cands, k)
                 && r.nafdacNumber == Some(cands[k].number) && r.confidence == Some(cands[k].confidence))
      && (cands == [] ==>
            && r.nafdacNumber == None && r.confidence == None
            && (data == [] ==> r.productName == None && calls == [DetectDocumentText(key)])
            && (data != [] ==>
                  r.productName == ProductName(bedrock(data))
                  && calls == [DetectDocumentText(key), InvokeModel(data)]))
  }

  method ExtractNafdacNumberOcr(key: string, data: seq<byte>, textract: string -> TextractOutcome,
                                bedrock: seq<byte> -> BedrockOutcome)
    returns (r: OcrResult, calls: seq<Call>)
    ensures OcrSpec(key, data, textract, bedrock, r, calls)
  {
    calls := [DetectDocumentText(key)];
    var response := textract(key);
    if response.TextractFailed? {
      return OcrResult(None, None, Some(""), None), calls;
    }
    var allText, candidates := ScanBlocks(response.blocks);
    var fullText := Join(allText, " ");
    if candidates != [] {
      var best := SelectBest(candidates);
      return OcrResult(Some(candidates[best].number), Some(candidates[best].confidence), Some(fullText), None), calls;
    }
    var productName := None;
    if data != [] {
      calls := calls + [InvokeModel(data)];
      productName := ProductName(bedrock(data));
    }
    r := OcrResult(None, None, Some(fullText), productName);
  }

  // ---------------------------------------------------------------------
  // handler

  /** The request body; a missing key reads as None. */
  datatype Request = Request(image: Option<string>, nafdacNumber: Option<string>)

  /** The JSON body of the handler's response. */
  datatype ImageBody =
    | Processed(verificationId: string, timestamp: string, imageKey: string,
                nafdacNumber: Option<string>, productName: Option<string>,
                ocrConfidence: Option<real>, extractedText: Option<string>)
    | ErrorBody(error: string)

  /** Status code, whether the CORS headers are sent, and the body. */
  datatype Response = Response(statusCode: int, withCors: bool, body: ImageBody)

  const MissingImage := "Missing image data"

  /** `handler`, with the generated id and timestamp, base64 decoding and the
      three AWS clients as parameters. */
  method Handler(request: Request, verificationId: string, timestamp: string,
                 decode: string -> Result<seq<byte>, string>,
                 putObject: (string, seq<byte>) -> PutOutcome,
                 textract: string -> TextractOutcome, bedrock: seq<byte> -> BedrockOutcome)
    returns (resp: Response, calls: seq<Call>)
    ensures !Truthy(request.image) ==>
      resp == Response(400, false, ErrorBody(MissingImage)) && calls == []
    ensures Truthy(request.image) && decode(StripDataUrl(request.image.value)).Failure? ==>
      resp == Response(500, true, ErrorBody(decode(StripDataUrl(request.image.value)).error)) && calls == []
    ensures Truthy(request.image) && decode(StripDataUrl(request.image.value)).Success? ==>
      var data := decode(StripDataUrl(request.image.value)).value;
      var key := ImageKey(timestamp, verificationId);
      && |calls| >= 1 && calls[0] == PutObject(key, data)
      && (putObject(key, data).PutFailed? ==>
            resp == Response(500, true, ErrorBody(putObject(key, data).message)) && calls == [PutObject(key, data)])
      && (putObject(key, data).Stored? && Truthy(request.nafdacNumber) ==>
            && resp == Response(200, true, Processed(verificationId, timestamp, key, request.nafdacNumber, None, None, None))
            && calls == [PutObject(key, data)])
      && (putObject(key, data).Stored? && !Truthy(request.nafdacNumber) ==>
            exists r :: OcrSpec(key, data, textract, bedrock, r, calls[1..])
              && resp == Response(200, true, Processed(verificationId, timestamp, key,
                                                       r.nafdacNumber, r.productName, r.confidence, r.allText)))
  {
    calls := [];
    if !Truthy(request.image) {
      return Response(400, false, ErrorBody(MissingImage)), calls;
    }
    var encoded := StripDataUrl(request.image.value);
    var decoded := decode(encoded);
    if decoded.Failure? {
      return Response(500, true, ErrorBody(decoded.error)), calls;
    }
    var data := decoded.value;
    var key := ImageKey(timestamp, verificationId);
    calls := calls + [PutObject(key, data)];
    var stored := putObject(key, data);
    if stored.PutFailed? {
      return Response(500, true, ErrorBody(stored.message)), calls;
    }
    var ocr;
    if Truthy(request.nafdacNumber) {
      ocr := OcrResult(request.nafdacNumber, None, None, None);
    } else {
      var ocrCalls;
      ocr, ocrCalls := ExtractNafdacNumberOcr(key, data, textract, bedrock);
      calls := calls + ocrCalls;
      assert calls[1..] == ocrCalls;
    }
    resp := Response(200, true, Processed(verificationId, timestamp, key,
                                         ocr.nafdacNumber, ocr.productName, ocr.confidence, ocr.allText));
  }
}
