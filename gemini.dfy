/** The AI extraction (services/geminiService.ts): the prompt sent for an
    HTML page or an article text, and what `extractHogPriceData` makes of the
    model's reply. The call to the Gemini API is a collaborator: the reply it
    gives for a prompt is a function parameter, and so is `JSON.parse`. */
module Gemini {

  import opened Types
  import opened Text

  // ---------------------------------------------------------------------
  // Parsed JSON values and JavaScript truthiness
  // ---------------------------------------------------------------------

  /** A value `JSON.parse` can produce. */
  datatype Json =
    | JNull
    | JBool(b: bool)
    | JNumber(n: real)
    | JString(s: string)
    | JArray(items: seq<Json>)
    | JObject(fields: map<string, Json>)

  /** JavaScript truthiness of a parsed value: `null`, `false`, `0` and the
      empty string are falsy; every array and object, even an empty one, is
      truthy. */
  function Truthy(v: Json): (b: bool)
    ensures !b <==> v == JNull || v == JBool(false) || v == JNumber(0.0) || v == JString("")
  {
    match v
    case JNull => false
    case JBool(flag) => flag
    case JNumber(n) => n != 0.0
    case JString(s) => s != ""
    case JArray(_) => true
    case JObject(_) => true
  }

  /** `v.key` for a parsed value: only an object has properties. */
  function Property(v: Json, key: string): (p: Option<Json>)
    ensures p.Some? <==> v.JObject? && key in v.fields
    ensures p.Some? ==> p.value == v.fields[key]
  {
    if v.JObject? && key in v.fields then Some(v.fields[key]) else None
  }

  /** `v.key` is truthy (an absent property is `undefined`, which is falsy). */
  predicate PropertyTruthy(v: Json, key: string) {
    Property(v, key).Some? && Truthy(Property(v, key).value)
  }

  // ---------------------------------------------------------------------
  // Acceptance of the parsed reply
  // ---------------------------------------------------------------------

  /** The basic validation of the parsed reply: it is returned, unchanged,
      when it is truthy and has a truthy `extractedData` or a truthy
      `priceMovementSummary`; otherwise the result is `null` (None). */
  function AcceptResponse(parsed: Json): (r: Option<Json>)
    ensures r.Some? ==> r.value == parsed
    ensures r.Some? <==>
              parsed.JObject? &&
              (|| ("extractedData" in parsed.fields && Truthy(parsed.fields["extractedData"]))
               || ("priceMovementSummary" in parsed.fields && Truthy(parsed.fields["priceMovementSummary"])))
  {
    if Truthy(parsed) && (PropertyTruthy(parsed, "extractedData") || PropertyTruthy(parsed, "priceMovementSummary"))
    then Some(parsed)
    else None
  }

  /** The validation checks neither the shape of the records nor the type of
      the summary: an empty record list is accepted, and so is a string in
      place of the list; an empty summary with no records is not, nor is a
      bare array. */
  lemma AcceptanceExamples()
    ensures AcceptResponse(JObject(map["extractedData" := JArray([])])).Some?
    ensures AcceptResponse(JObject(map["extractedData" := JString("none")])).Some?
    ensures AcceptResponse(JObject(map["priceMovementSummary" := JString("")])).None?
    ensures AcceptResponse(JArray([JObject(map[])])).None?
  {
    assert Property(JObject(map["extractedData" := JArray([])]), "extractedData") == Some(JArray([]));
    assert Property(JObject(map["extractedData" := JString("none")]), "extractedData") == Some(JString("none"));
  }

  // ---------------------------------------------------------------------
  // extractHogPriceData
  // ---------------------------------------------------------------------

  const AiFailureMessage := "Failed to fetch or parse data from AI. The model may have returned an invalid format."

  /** The reply of `generateContent`: Failure when the call is rejected,
      Success(None) when the response carries no text. */
  type Reply = Result<Option<string>, ()>

  /** What follows the API call: trim the reply's text, parse it and apply the
      basic validation. A rejected call, a missing text or a parse error all
      end in the one error message; a reply that fails the validation gives
      Success(None), the `null` result. */
  function HandleReply(reply: Reply, parse: string -> Option<Json>): (r: Result<Option<Json>, string>)
    ensures r.Failure? ==> r.error == AiFailureMessage
    ensures r.Failure? <==> reply.Failure? || reply.value.None? || parse(Trim(reply.value.value)).None?
    ensures r.Success? ==> r.value == AcceptResponse(parse(Trim(reply.value.value)).value)
    ensures r.Success? && r.value.Some? ==>
              Some(r.value.value) == parse(Trim(reply.value.value)) && r.value.value.JObject?
  {
    match reply
    case Failure(_) => Failure(AiFailureMessage)
    case Success(None) => Failure(AiFailureMessage)
    case Success(Some(text)) =>
      match parse(Trim(text))
      case None => Failure(AiFailureMessage)
      case Some(parsed) => Success(AcceptResponse(parsed))
  }

  /** Whitespace around the model's JSON does not change the outcome. */
  lemma ReplyWhitespaceIgnored(w1: string, text: string, w2: string, parse: string -> Option<Json>)
    requires AllWhitespace(w1) && AllWhitespace(w2)
    ensures HandleReply(Success(Some(w1 + text + w2)), parse) == HandleReply(Success(Some(text)), parse)
  {
    TrimIgnoresSurroundingWhitespace(w1, text, w2);
  }

  /** `extractHogPriceData(content, contentType)`: the prompt for the content
      is sent, and the reply handled. */
  function ExtractHogPriceData(content: string, contentType: ContentType,
                               generate: string -> Reply, parse: string -> Option<Json>): (r: Result<Option<Json>, string>)
    ensures var reply := generate(GetPrompt(content, contentType));
              r.Failure? <==> reply.Failure? || reply.value.None? || parse(Trim(reply.value.value)).None?
    ensures var reply := generate(GetPrompt(content, contentType));
              r.Success? ==> r.value == AcceptResponse(parse(Trim(reply.value.value)).value)
    ensures r.Failure? ==> r.error == AiFailureMessage
  {
    HandleReply(generate(GetPrompt(content, contentType)), parse)
  }

  // ---------------------------------------------------------------------
  // The prompts
  // ---------------------------------------------------------------------

  datatype ContentType = Html | Text

  const CommonInstructions := @"
        Your first task is to provide a concise, 2-3 sentence summary of the hog price movements described in the article. This summary should capture the overall market trend (e.g., prices are generally stable, increasing, or decreasing) and mention any key reasons for the changes if the text provides them. This will be the 'priceMovementSummary'.

        Your second task is to extract the detailed data:
        1.  **Identify Date**: From the article content, find the publication date. Format it as YYYY-MM-DD. If the year is missing, assume the current year. This date should be the same for all records from this article.
        2.  **Identify Provinces and Prices**: Scan the article text and identify every Vietnamese province or region mentioned alongside its hog price.
        3.  **Handle Vietnamese Currency**: Prices are in Vietnamese Dong (VND) and use a period (.) as a thousands separator. For example, '68.000' MUST be interpreted as the number 68000.
        4.  **Calculate Average Price**: Most prices are given as a range (e.g., ""68.000 - 69.000 đồng/kg""). You must calculate the average of this range. For example, the average of 68.000 and 69.000 is (68000 + 69000) / 2 = 68500. The final price must be a single number.
        5.  **Structure Data**: Create an array of JSON objects for the 'extractedData' field. Each object represents a province and must contain ""date"", ""province"", and the calculated average ""price"". Ensure every province found in the text is included.
        6.  **Final Output**: Return a single JSON object that strictly follows the provided response schema, containing both the 'priceMovementSummary' and the 'extractedData' array.
    "

  const HtmlOpening := @"
            You are an expert data analyst specializing in agricultural markets in Vietnam.
            Your task is to analyze the provided HTML content, find the main article, and then extract hog price information and a market summary into a clean JSON format.

            From the HTML content below, please perform the following actions:
            "

  const ArticleBodyStep := @"First, parse the provided HTML to find the main news article body. Ignore all non-essential elements like headers, footers, navigation bars, advertisements, and sidebars. Focus only on the text that constitutes the article itself."

  const HtmlBeforeInstructions := @"
            Then, perform these two tasks:
            "

  const HtmlBeforeContent := @"

            Here is the full HTML content of the webpage:"

  const TextOpening := @"
            You are an expert data analyst specializing in agricultural markets in Vietnam.
            Your task is to analyze the provided article text and extract hog price information and a market summary into a clean JSON format.

            From the text below, please perform the following actions:
            "

  const TextBeforeContent := @"

            Here is the article text:"

  /** The delimiter lines around the content. */
  const OpenDelimiter := "\n            ---\n            "
  const CloseDelimiter := "\n            ---\n        "

  /** The fixed text before the content. */
  function PromptHead(contentType: ContentType): string {
    match contentType
    case Html =>
      HtmlOpening + ArticleBodyStep + HtmlBeforeInstructions + CommonInstructions + HtmlBeforeContent + OpenDelimiter
    case Text =>
      TextOpening + CommonInstructions + TextBeforeContent + OpenDelimiter
  }

  /** `getPrompt(content, contentType)`: the content is inserted verbatim
      between a fixed head, which depends on the content type only, and a
      fixed tail. */
  function GetPrompt(content: string, contentType: ContentType): (p: string)
    ensures |p| == |PromptHead(contentType)| + |content| + |CloseDelimiter|
    ensures p[..|PromptHead(contentType)|] == PromptHead(contentType)
    ensures p[|PromptHead(contentType)|..|p| - |CloseDelimiter|] == content
    ensures p[|p| - |CloseDelimiter|..] == CloseDelimiter
  {
    var head := PromptHead(contentType);
    var p := head + content + CloseDelimiter;
    assert p[..|head|] == head;
    assert p[|head|..|p| - |CloseDelimiter|] == content;
    p
  }

  /** Different contents give different prompts. */
  lemma PromptDeterminesContent(c1: string, c2: string, contentType: ContentType)
    ensures c1 != c2 ==> GetPrompt(c1, contentType) != GetPrompt(c2, contentType)
  {
    var p1, p2 := GetPrompt(c1, contentType), GetPrompt(c2, contentType);
    if p1 == p2 {
      assert c1 == p1[|PromptHead(contentType)|..|p1| - |CloseDelimiter|];
    }
  }

  /** Where a piece of a concatenation of eight strings is found. */
  lemma IncludesPiecesOfEight(p1: string, p2: string, p3: string, p4: string,
                              p5: string, p6: string, p7: string, p8: string)
    ensures Includes(p1 + p2 + p3 + p4 + p5 + p6 + p7 + p8, p2)
    ensures Includes(p1 + p2 + p3 + p4 + p5 + p6 + p7 + p8, p4)
    ensures Includes(p1 + p2 + p3 + p4 + p5 + p6 + p7 + p8, p6 + p7 + p8)
  {
    var s := p1 + p2 + p3 + p4 + p5 + p6 + p7 + p8;
    assert s == p1 + p2 + (p3 + p4 + p5 + p6 + p7 + p8);
    IncludesMiddle(p1, p2, p3 + p4 + p5 + p6 + p7 + p8);
    assert s == p1 + p2 + p3 + p4 + (p5 + p6 + p7 + p8);
    IncludesMiddle(p1 + p2 + p3, p4, p5 + p6 + p7 + p8);
    assert s == p1 + p2 + p3 + p4 + p5 + (p6 + p7 + p8) + [];
    IncludesMiddle(p1 + p2 + p3 + p4 + p5, p6 + p7 + p8, []);
  }

  /** Where a piece of a concatenation of six strings is found. */
  lemma IncludesPiecesOfSix(p1: string, p2: string, p3: string, p4: string, p5: string, p6: string)
    ensures Includes(p1 + p2 + p3 + p4 + p5 + p6, p2)
    ensures Includes(p1 + p2 + p3 + p4 + p5 + p6, p4 + p5 + p6)
  {
    var s := p1 + p2 + p3 + p4 + p5 + p6;
    assert s == p1 + p2 + (p3 + p4 + p5 + p6);
    IncludesMiddle(p1, p2, p3 + p4 + p5 + p6);
    assert s == p1 + p2 + p3 + (p4 + p5 + p6) + [];
    IncludesMiddle(p1 + p2 + p3, p4 + p5 + p6, []);
  }

  /** The HTML prompt asks the model to find the article body first, then
      gives the shared instructions, then the content between the two
      delimiter lines. */
  lemma HtmlPromptParts(content: string)
    ensures Includes(GetPrompt(content, Html), ArticleBodyStep)
    ensures Includes(GetPrompt(content, Html), CommonInstructions)
    ensures Includes(GetPrompt(content, Html), OpenDelimiter + content + CloseDelimiter)
  {
    IncludesPiecesOfEight(HtmlOpening, ArticleBodyStep, HtmlBeforeInstructions, CommonInstructions,
                          HtmlBeforeContent, OpenDelimiter, content, CloseDelimiter);
  }

  /** The article-text prompt gives the shared instructions, then the content
      between the two delimiter lines. */
  lemma TextPromptParts(content: string)
    ensures Includes(GetPrompt(content, Text), CommonInstructions)
    ensures Includes(GetPrompt(content, Text), OpenDelimiter + content + CloseDelimiter)
  {
    IncludesPiecesOfSix(TextOpening, CommonInstructions, TextBeforeContent, OpenDelimiter, content, CloseDelimiter);
  }
}
