/** The parts of the OpenAI client that do not talk to the network: the
    Markdown rendering of a structured summary (`StructuredOutput.summarize`),
    the text chunking (`chunk`), the request built for each data type
    (`_handle_summary`) and the class-level singleton (`__new__`).

    The model call `client.responses.parse` is the oracle `respond`; its
    answer is a parsed StructuredOutput or a failure. */
module OpenAI {
  import opened Text
  import opened Outcomes

  // ----- StructuredOutput.summarize -----

  /** The fields the model is asked to fill in. */
  datatype StructuredOutput = StructuredOutput(
    author: Option<string>,
    publishDate: Option<string>,
    contentType: string,
    language: string,
    tags: seq<string>,
    summary: string)

  /** Python truthiness of an optional string: `None` and `""` are false. */
  predicate Present(v: Option<string>) {
    v.Some? && v.value != ""
  }

  /** A labelled optional field, "Not specified" when it is absent or empty. */
  function OptionalLine(heading: string, v: Option<string>): string {
    heading + (if Present(v) then v.value else "Not specified")
  }

  function AuthorLine(o: StructuredOutput): string {
    OptionalLine("**Author:** ", o.author)
  }

  function PublishDateLine(o: StructuredOutput): string {
    OptionalLine("**Publish Date:** ", o.publishDate)
  }

  /** Reading an optional field back from its line: the text after the
      heading, or None where the line says "Not specified". */
  function ReadOptional(heading: string, line: string): Option<string> {
    if |line| < |heading| || line[|heading|..] == "Not specified" then None else Some(line[|heading|..])
  }

  /** What an optional line keeps of its field: a non-empty value reads back
      as itself, except the value "Not specified"; `None`, `""` and
      "Not specified" all read back as missing. */
  lemma ReadOptionalLine(heading: string, v: Option<string>)
    ensures ReadOptional(heading, OptionalLine(heading, v)) == if Present(v) && v.value != "Not specified" then v else None
  {
    var line := OptionalLine(heading, v);
    assert line[|heading|..] == if Present(v) then v.value else "Not specified";
  }

  /** One section of the f-string, the blank line after it, and the rest. */
  function Paragraph(section: string, rest: string): string {
    section + "\n\n" + rest
  }

  /** The rendered Markdown, the f-string of `summarize`: a heading, then the
      six fields, each a section of its own separated by a blank line, and a
      final newline. */
  function Render(o: StructuredOutput): string {
    Paragraph("### Summary",
    Paragraph(AuthorLine(o),
    Paragraph(PublishDateLine(o),
    Details(o))))
  }

  /** The sections after the optional fields: content type, language, tags
      and summary, the last one ending the text with a newline. */
  function Details(o: StructuredOutput): string {
    Paragraph("**Content Type:** " + o.contentType,
    Paragraph("**Language:** " + o.language,
    Paragraph("**Tags:** " + Join(o.tags, ", "),
    "**Summary:** " + o.summary + "\n")))
  }

  /** No field holds a line break. */
  predicate SingleLineFields(o: StructuredOutput) {
    && (o.author.Some? ==> '\n' !in o.author.value)
    && (o.publishDate.Some? ==> '\n' !in o.publishDate.value)
    && '\n' !in o.contentType && '\n' !in o.language && '\n' !in o.summary
    && forall i :: 0 <= i < |o.tags| ==> '\n' !in o.tags[i]
  }

  /** Tags without a line break join into a line without one. */
  lemma {:induction false} JoinKeepsOut(parts: seq<string>, sep: string, c: char)
    requires c !in sep && forall i :: 0 <= i < |parts| ==> c !in parts[i]
    ensures c !in Join(parts, sep)
    decreases |parts|
  {
    if |parts| > 1 {
      JoinKeepsOut(parts[1..], sep, c);
    }
  }

  /** A one-line section and its blank line in front of the rest. */
  lemma ParagraphFirst(section: string, rest: string)
    requires '\n' !in section
    ensures Split(Paragraph(section, rest), '\n') == [section, ""] + Split(rest, '\n')
  {
    SplitPrefix(section, '\n', "\n" + rest);
    SplitPrefix("", '\n', rest);
    assert Paragraph(section, rest) == section + ['\n'] + ("\n" + rest);
    assert "\n" + rest == [] + ['\n'] + rest;
  }

  /** The optional lines hold no line break. */
  lemma OptionalLinesOneLine(o: StructuredOutput)
    requires SingleLineFields(o)
    ensures '\n' !in AuthorLine(o) && '\n' !in PublishDateLine(o)
  {
    assert '\n' !in "**Author:** " && '\n' !in "**Publish Date:** " && '\n' !in "Not specified";
  }

  /** The detail sections hold no line break. */
  lemma DetailSectionsOneLine(o: StructuredOutput)
    requires SingleLineFields(o)
    ensures '\n' !in "**Content Type:** " + o.contentType && '\n' !in "**Language:** " + o.language
    ensures '\n' !in "**Tags:** " + Join(o.tags, ", ") && '\n' !in "**Summary:** " + o.summary
  {
    JoinKeepsOut(o.tags, ", ", '\n');
    assert '\n' !in "**Content Type:** " && '\n' !in "**Language:** ";
    assert '\n' !in "**Tags:** " && '\n' !in "**Summary:** ";
  }

  /** When no field holds a line break, the rendered summary splits at its
      newlines into exactly the fixed layout: each section on the line where
      the layout puts it, in the same order for every summary, with missing
      author or publish date shown as "Not specified". */
  lemma RenderLayout(o: StructuredOutput)
    requires SingleLineFields(o)
    ensures var lines := Split(Render(o), '\n');
      && |lines| == 14
      && lines[0] == "### Summary"
      && lines[2] == AuthorLine(o)
      && lines[4] == PublishDateLine(o)
      && lines[6] == "**Content Type:** " + o.contentType
      && lines[8] == "**Language:** " + o.language
      && lines[10] == "**Tags:** " + Join(o.tags, ", ")
      && lines[12] == "**Summary:** " + o.summary
      && lines[1] == lines[3] == lines[5] == lines[7] == lines[9] == lines[11] == lines[13] == ""
  {
    RenderSplit(o);
    DetailsLines(o);
  }

  /** The heading and the two optional fields, each followed by a blank
      line, come before the lines of the details. */
  lemma RenderSplit(o: StructuredOutput)
    requires SingleLineFields(o)
    ensures Split(Render(o), '\n') == ["### Summary", "", AuthorLine(o), "", PublishDateLine(o), ""] + Split(Details(o), '\n')
  {
    OptionalLinesOneLine(o);
    var t3 := Paragraph(PublishDateLine(o), Details(o));
    ParagraphFirst(PublishDateLine(o), Details(o));
    var t2 := Paragraph(AuthorLine(o), t3);
    ParagraphFirst(AuthorLine(o), t3);
    assert '\n' !in "### Summary";
    ParagraphFirst("### Summary", t2);
  }

  /** The four detail sections split into their lines and blank lines. */
  lemma DetailsLines(o: StructuredOutput)
    requires SingleLineFields(o)
    ensures Split(Details(o), '\n') == ["**Content Type:** " + o.contentType, "", "**Language:** " + o.language, "",
                                        "**Tags:** " + Join(o.tags, ", "), "", "**Summary:** " + o.summary, ""]
  {
    DetailSectionsOneLine(o);
    var l4 := "**Content Type:** " + o.contentType;
    var l5 := "**Language:** " + o.language;
    var l6 := "**Tags:** " + Join(o.tags, ", ");
    var l7 := "**Summary:** " + o.summary;
    var t7 := l7 + "\n";
    SplitPrefix(l7, '\n', "");
    SplitNone("", '\n');
    assert t7 == l7 + ['\n'] + "";
    var t6 := Paragraph(l6, t7);
    ParagraphFirst(l6, t7);
    var t5 := Paragraph(l5, t6);
    ParagraphFirst(l5, t6);
    ParagraphFirst(l4, t5);
  }

  // ----- chunk -----

  /** `token_size`: the character budget of one chunk. */
  const TokenSize: nat := 8192

  function Min(a: int, b: int): int {
    if a <= b then a else b
  }

  /** `[text[i:i+token_size] for i in range(0, len(text), token_size)]`:
      consecutive slices of 8192 characters, Python slicing clipping the last. */
  function Chunks(text: string): (r: seq<string>)
    ensures |r| == (|text| + TokenSize - 1) / TokenSize
  {
    var n := (|text| + TokenSize - 1) / TokenSize;
    seq(n, j requires 0 <= j < n => text[j * TokenSize .. Min((j + 1) * TokenSize, |text|)])
  }

  /** A text longer than one chunk: its first slice, then the chunks of the rest. */
  lemma ChunksUnfold(text: string)
    requires |text| > TokenSize
    ensures Chunks(text) == [text[..TokenSize]] + Chunks(text[TokenSize..])
  {
    var rest := text[TokenSize..];
    var c := Chunks(text);
    var d := Chunks(rest);
    assert |c| == 1 + |d|;
    forall j | 0 <= j < |d|
      ensures c[j + 1] == d[j]
    {
      assert (j + 1) * TokenSize == TokenSize + j * TokenSize;
      assert c[j + 1] == text[TokenSize + j * TokenSize .. Min(TokenSize + (j + 1) * TokenSize, |text|)];
      assert d[j] == rest[j * TokenSize .. Min((j + 1) * TokenSize, |rest|)];
    }
    assert c == [c[0]] + c[1..];
  }

  /** The chunks put back together are the text. */
  lemma {:induction false} ChunksConcat(text: string)
    ensures Concat(Chunks(text)) == text
    decreases |text|
  {
    if |text| > TokenSize {
      ChunksUnfold(text);
      ChunksConcat(text[TokenSize..]);
      assert text[..TokenSize] + text[TokenSize..] == text;
    } else if text != [] {
      assert (|text| + TokenSize - 1) / TokenSize == 1;
      assert Chunks(text)[0] == text[0..|text|] == text;
      assert Chunks(text) == [text];
    }
  }

  /** Every chunk but the last holds exactly 8192 characters; the last holds
      between one and 8192. */
  lemma ChunkSizes(text: string)
    ensures forall j :: 0 <= j < |Chunks(text)| - 1 ==> |Chunks(text)[j]| == TokenSize
    ensures text != [] ==> 0 < |Chunks(text)[|Chunks(text)| - 1]| <= TokenSize
  {
    var c := Chunks(text);
    var n := |c|;
    forall j | 0 <= j < n - 1
      ensures |c[j]| == TokenSize
    {
      assert (j + 1) * TokenSize <= (n - 1) * TokenSize;
    }
    if text != [] {
      assert (n - 1) * TokenSize < |text|;
    }
  }

  /** `chunk`: only the first chunk is kept; an empty text has no chunks, so
      `chunks[0]` raises IndexError. */
  function Chunk(text: string): (r: Result<seq<string>>)
    ensures r.Raised? <==> text == []
    ensures r.Raised? ==> r.error == IndexError
    ensures r.Ok? ==> |r.value| == 1 && r.value[0] == text[..Min(TokenSize, |text|)]
  {
    var chunks := Chunks(text);
    if |chunks| == 0 then Raised(IndexError) else Ok([chunks[0]])
  }

  /** The kept chunk is a prefix of the text of at most 8192 characters,
      and all of it when the text fits. */
  lemma ChunkIsPrefix(text: string)
    requires text != []
    ensures var piece := Chunk(text).value[0];
      && StartsWith(text, piece) && 0 < |piece| <= TokenSize
      && (|text| <= TokenSize <==> piece == text)
  {
  }

  // ----- _handle_summary -----

  /** What the client is asked to summarize: text, or an image's pixels. */
  datatype Content = TextContent(text: string) | ImageContent(pixels: seq<bv8>)

  /** The user message: the content as given, or an image as a data URL. */
  datatype UserInput = AsGiven(content: Content) | ImageUrl(url: string)

  /** The `input` of `responses.parse`: the model, the system message and the user message. */
  datatype Request = Request(model: string, system: string, user: UserInput)

  /** The system message sent with text. */
  const TextInstruction := "You are a summarization tool. Summarize the following text and provide structured output."

  /** The request `_handle_summary` builds for a data type: "text" sends the
      content with a fixed instruction; "image" re-encodes the image as
      base64 JPEG into a data URL and sends it with the JSON-format prompt;
      any other data type raises ValueError. The encoder is the oracle
      `encodeJpeg`: `None` stands for an image PIL cannot save as JPEG (an
      RGBA or palette image, say), whose `save` raises OSError. */
  function BuildRequest(model: string, content: Content, dataType: string, prompt: string,
                        encodeJpeg: seq<bv8> -> Option<string>): (r: Result<Request>)
    ensures r.Raised? && r.error.ValueError? <==> dataType != "text" && dataType != "image"
    ensures dataType == "text" ==> r == Ok(Request(model, TextInstruction, AsGiven(content)))
    ensures dataType == "image" && content.ImageContent? ==>
      r == match encodeJpeg(content.pixels)
           case None => Raised(OSError)
           case Some(b64) => Ok(Request(model, prompt, ImageUrl("data:image/jpeg;base64," + b64)))
    ensures r.Ok? ==> r.value.model == model
  {
    if dataType == "text" then
      Ok(Request(model, TextInstruction, AsGiven(content)))
    else if dataType == "image" then
      match content
      case ImageContent(pixels) =>
        (match encodeJpeg(pixels)
         case None => Raised(OSError)
         case Some(b64) => Ok(Request(model, prompt, ImageUrl("data:image/jpeg;base64," + b64))))
      case TextContent(_) => Raised(AttributeError("save"))
    else
      Raised(ValueError("Unsupported data type."))
  }

  /** `_handle_summary`: construct the API client (which fails without an API
      key), build the request, ask the model and render its answer. Every
      failure is re-raised. */
  function HandleSummary(model: string, content: Content, dataType: string, prompt: string,
                         apiKey: Option<string>, encodeJpeg: seq<bv8> -> Option<string>,
                         respond: Request -> Result<StructuredOutput>): (r: Result<string>)
    ensures apiKey.None? ==> r == Raised(CollaboratorError)
    ensures apiKey.Some? && dataType != "text" && dataType != "image" ==>
      r == Raised(ValueError("Unsupported data type."))
    ensures r.Ok? ==>
      var request := BuildRequest(model, content, dataType, prompt, encodeJpeg);
      request.Ok? && respond(request.value).Ok? && r.value == Render(respond(request.value).value)
  {
    if apiKey.None? then Raised(CollaboratorError)
    else
      match BuildRequest(model, content, dataType, prompt, encodeJpeg)
      case Raised(e) => Raised(e)
      case Ok(request) =>
        match respond(request)
        case Raised(e) => Raised(e)
        case Ok(output) => Ok(Render(output))
  }

  /** An unsupported data type raises before any request is made: the
      outcome does not depend on the model at all. */
  lemma UnsupportedMakesNoRequest(model: string, content: Content, dataType: string, prompt: string,
                                  apiKey: Option<string>, encodeJpeg: seq<bv8> -> Option<string>,
                                  respond1: Request -> Result<StructuredOutput>,
                                  respond2: Request -> Result<StructuredOutput>)
    requires dataType != "text" && dataType != "image"
    ensures HandleSummary(model, content, dataType, prompt, apiKey, encodeJpeg, respond1)
         == HandleSummary(model, content, dataType, prompt, apiKey, encodeJpeg, respond2)
    ensures HandleSummary(model, content, dataType, prompt, apiKey, encodeJpeg, respond1).Raised?
  {
  }

  /** `summarize_text` passes "text": the request is the text with the fixed
      instruction, and the outcome is exactly the model's, rendered when it
      answers; no error of the client's own arises on this path. */
  lemma SummarizeTextRenders(model: string, text: string, prompt: string, apiKey: Option<string>,
                            encodeJpeg: seq<bv8> -> Option<string>, respond: Request -> Result<StructuredOutput>)
    requires apiKey.Some?
    ensures var answer := respond(Request(model, TextInstruction, AsGiven(TextContent(text))));
      HandleSummary(model, TextContent(text), "text", prompt, apiKey, encodeJpeg, respond)
        == if answer.Ok? then Ok(Render(answer.value)) else Raised(answer.error)
  {
  }

  /** `summarize_image` passes "image": an image PIL cannot write as JPEG
      raises OSError and the model is never asked; any other image is sent
      as a JPEG data URL with the prompt, and the outcome is exactly the
      model's. */
  lemma SummarizeImageRenders(model: string, pixels: seq<bv8>, prompt: string, apiKey: Option<string>,
                             encodeJpeg: seq<bv8> -> Option<string>, respond: Request -> Result<StructuredOutput>)
    requires apiKey.Some?
    ensures encodeJpeg(pixels).None? ==>
      HandleSummary(model, ImageContent(pixels), "image", prompt, apiKey, encodeJpeg, respond) == Raised(OSError)
    ensures encodeJpeg(pixels).Some? ==>
      var answer := respond(Request(model, prompt, ImageUrl("data:image/jpeg;base64," + encodeJpeg(pixels).value)));
      HandleSummary(model, ImageContent(pixels), "image", prompt, apiKey, encodeJpeg, respond)
        == if answer.Ok? then Ok(Render(answer.value)) else Raised(answer.error)
  {
  }

  // ----- the singleton -----

  /** The model used when none is named. */
  const DefaultModelId := "gpt-4o-mini"

  /** An OpenAI client; `model_id` is set once, when the single instance is made. */
  class OpenAIClient {
    var modelId: string

    constructor (modelId: string)
      ensures this.modelId == modelId
    {
      this.modelId := modelId;
    }
  }

  /** The class object of OpenAIClient, which holds `_instance`: either no
      instance yet, or the one instance every construction returns. */
  class OpenAIClientClass {
    var instance: OpenAIClient?

    constructor ()
      ensures instance == null
    {
      instance := null;
    }

    /** `OpenAIClient(model_id)`, that is, `__new__`: the first construction
        creates the instance with this model id; every later one returns the
        same instance and leaves its model id as it was. */
    method New(modelId: string) returns (c: OpenAIClient)
      modifies this
      ensures old(instance) == null ==> fresh(c) && c.modelId == modelId
      ensures old(instance) != null ==> c == old(instance) && c.modelId == old(instance.modelId)
      ensures instance == c
    {
      if instance == null {
        instance := new OpenAIClient(modelId);
      }
      c := instance;
    }
  }

  /** Two constructions in a row give one object, with the model id of
      whichever construction came first. */
  method ConstructTwice(cls: OpenAIClientClass, first: string, second: string)
    returns (c1: OpenAIClient, c2: OpenAIClient)
    modifies cls
    ensures c1 == c2 && cls.instance == c1
    ensures c2.modelId == if old(cls.instance) == null then first else old(cls.instance.modelId)
  {
    c1 := cls.New(first);
    c2 := cls.New(second);
  }
}
