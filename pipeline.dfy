/** The command line: read the URIs (`read_uris_from_stdin`,
    `read_uris_from_file`), pick the model provider, summarize every URI
    (`handle_uri_semaphore` under `asyncio.gather`) and print one block per
    URI; and `summarize_uri` put together from its handlers.

    The input text, the filesystem, the network and the model are given as
    values and oracles; nothing here performs I/O. */
module Pipeline {
  import opened Text
  import opened Outcomes
  import Dispatch
  import Directory
  import OpenAI

  // ----- reading URIs -----

  /** `[line.strip() for line in lines]` over the lines the input yields:
      one entry per line, each stripped of the whitespace around it,
      its newline included. */
  function ReadUris(text: string): (uris: seq<string>)
    ensures |uris| == |Lines(text)|
    ensures forall i :: 0 <= i < |uris| ==> Trimmed(uris[i])
    ensures forall i :: 0 <= i < |uris| ==> Surrounds(Lines(text)[i], uris[i], StripStart(Lines(text)[i]))
  {
    var lines := Lines(text);
    seq(|lines|, i requires 0 <= i < |lines| => Strip(lines[i]))
  }

  /** A text gives one URI per newline, and one more for an unterminated last line. */
  lemma ReadUrisCount(text: string)
    ensures |ReadUris(text)| == Count(text, '\n') + (if text != [] && text[|text| - 1] != '\n' then 1 else 0)
  {
    LinesCount(text);
  }

  /** A line holding only whitespace is kept, as the empty URI, rather than
      dropped; no other line gives the empty URI. */
  lemma BlankLineKept(text: string, i: nat)
    requires i < |Lines(text)|
    ensures ReadUris(text)[i] == "" <==> AllSpace(Lines(text)[i])
  {
    StripEmpty(Lines(text)[i]);
  }

  /** A URI read back never holds a newline: the only newline of a line is
      its last character, and stripping removes it. */
  lemma ReadUriOneLine(text: string, i: nat)
    requires i < |Lines(text)|
    ensures '\n' !in ReadUris(text)[i]
  {
    var line := Lines(text)[i];
    assert forall j :: 0 <= j < |line| - 1 ==> line[j] != '\n';
    StripOneLine(line);
  }

  /** Stripping a line removes its only possible newline, the last character. */
  lemma StripOneLine(line: string)
    requires forall j :: 0 <= j < |line| - 1 ==> line[j] != '\n'
    ensures '\n' !in Strip(line)
  {
    var u := Strip(line);
    var k := StripStart(line);
    forall j | 0 <= j < |u|
      ensures u[j] != '\n'
    {
      assert u[j] == line[k + j];
      if k + j == |line| - 1 {
        assert u[|u| - 1] == line[|line| - 1];
      }
    }
  }

  /** A file listing the URIs one per line, each line terminated. */
  function UriFile(uris: seq<string>): string
    decreases |uris|
  {
    if uris == [] then "" else uris[0] + "\n" + UriFile(uris[1..])
  }

  lemma {:induction false} UriFileLines(uris: seq<string>)
    requires forall i :: 0 <= i < |uris| ==> '\n' !in uris[i]
    ensures Lines(UriFile(uris)) == seq(|uris|, i requires 0 <= i < |uris| => uris[i] + "\n")
    decreases |uris|
  {
    if uris != [] {
      UriFileLines(uris[1..]);
      LinesPrefix(uris[0], UriFile(uris[1..]));
    }
  }

  /** A trimmed line stripped of its newline is itself. */
  lemma StripTerminated(u: string)
    requires Trimmed(u)
    ensures Strip(u + "\n") == u
  {
    var line := u + "\n";
    assert line[..0] == [] && line[0..|u|] == u && line[|u|..] == "\n";
    StripUnique(line, u, 0);
  }

  /** Reading a URI file back gives the URIs it lists, provided each is a
      single line without surrounding whitespace. */
  lemma ReadUrisRoundTrip(uris: seq<string>)
    requires forall i :: 0 <= i < |uris| ==> '\n' !in uris[i] && Trimmed(uris[i])
    ensures ReadUris(UriFile(uris)) == uris
  {
    UriFileLines(uris);
    var read := ReadUris(UriFile(uris));
    forall i | 0 <= i < |uris|
      ensures read[i] == uris[i]
    {
      StripTerminated(uris[i]);
    }
  }

  // ----- summarize_uri -----

  /** What `summarize_uri` finds outside the core, one oracle each:
      `os.path.isdir`, the steps of `os.walk`, the environment, the
      `netloc` and `path` of `urlparse`, the Atlassian fetch, the HTTP
      GET with `raise_for_status` (its response text), reading a text file,
      opening an image, and the client's `summarize_text` and
      `summarize_image`. */
  datatype World = World(
    isDir: string -> bool,
    walk: string -> seq<Directory.WalkStep>,
    env: map<string, string>,
    hostOf: string -> string,
    pathOf: string -> string,
    fetchAtlassian: (Dispatch.Site, Dispatch.AtlassianCall) -> Result<string>,
    fetchPage: string -> Result<string>,
    readFile: string -> Result<string>,
    openImage: string -> Result<seq<bv8>>,
    summarizeText: string -> Result<string>,
    summarizeImage: seq<bv8> -> Result<string>)

  /** Fetch or read, then summarize; either step's exception propagates. */
  function Then(content: Result<string>, summarize: string -> Result<string>): (r: Result<Option<string>>)
    ensures content.Raised? ==> r == Raised(content.error)
    ensures content.Ok? && summarize(content.value).Raised? ==> r == Raised(summarize(content.value).error)
    ensures content.Ok? && summarize(content.value).Ok? ==> r == Ok(Some(summarize(content.value).value))
  {
    match content
    case Raised(e) => Raised(e)
    case Ok(c) =>
      match summarize(c)
      case Raised(e) => Raised(e)
      case Ok(s) => Ok(Some(s))
  }

  /** The four handlers other than the directory handler: `summarize_atlassian`,
      `summarize_url` (GET the page, then summarize its text),
      `summarize_image` (open the image, then summarize it) and
      `summarize_text_file` (read the file, then summarize its contents).
      Only the Atlassian handler can return `None`. */
  function Handle(uri: string, h: Dispatch.Handler, w: World): (r: Result<Option<string>>)
    requires h != Dispatch.Directory
    ensures h == Dispatch.Atlassian ==>
      r == Dispatch.SummarizeAtlassian(uri, w.hostOf(uri), w.pathOf(uri), w.env, w.fetchAtlassian, w.summarizeText)
    ensures h == Dispatch.Web ==> r == Then(w.fetchPage(uri), w.summarizeText)
    ensures h == Dispatch.TextFile ==> r == Then(w.readFile(uri), w.summarizeText)
    ensures h == Dispatch.Image && w.openImage(uri).Raised? ==> r == Raised(w.openImage(uri).error)
    ensures h == Dispatch.Image && w.openImage(uri).Ok? ==>
      r == match w.summarizeImage(w.openImage(uri).value)
           case Raised(e) => Raised(e)
           case Ok(s) => Ok(Some(s))
    ensures h != Dispatch.Atlassian ==> r != Ok(None)
  {
    match h
    case Atlassian =>
      Dispatch.SummarizeAtlassian(uri, w.hostOf(uri), w.pathOf(uri), w.env, w.fetchAtlassian, w.summarizeText)
    case Web => Then(w.fetchPage(uri), w.summarizeText)
    case Image =>
      (match w.openImage(uri)
       case Raised(e) => Raised(e)
       case Ok(image) =>
         match w.summarizeImage(image)
         case Raised(e) => Raised(e)
         case Ok(s) => Ok(Some(s)))
    case TextFile => Then(w.readFile(uri), w.summarizeText)
  }

  /** `summarize_uri` on a path `os.walk` listed as a file: the same chain,
      with the directory test answering no. */
  function SummarizeFile(path: string, w: World): Result<Option<string>> {
    Handle(path, Dispatch.Classify(path, (p: string) => false), w)
  }

  /** `summarize_uri`: the handler the classification picks; a directory
      summarizes each file of its walk. The result is `None` only for an
      Atlassian link that matches no route. */
  function SummarizeUri(uri: string, w: World): (r: Result<Option<string>>)
    ensures r == Ok(None) ==> Dispatch.Classify(uri, w.isDir) == Dispatch.Atlassian
    ensures Dispatch.Classify(uri, w.isDir) == Dispatch.Directory ==>
      r == (match Directory.DirectorySummary(w.walk(uri), (p: string) => SummarizeFile(p, w))
            case Raised(e) => Raised(e)
            case Ok(s) => Ok(Some(s)))
    ensures Dispatch.Classify(uri, w.isDir) != Dispatch.Directory ==>
      r == Handle(uri, Dispatch.Classify(uri, w.isDir), w)
  {
    var h := Dispatch.Classify(uri, w.isDir);
    if h == Dispatch.Directory then
      match Directory.DirectorySummary(w.walk(uri), (p: string) => SummarizeFile(p, w))
      case Raised(e) => Raised(e)
      case Ok(s) => Ok(Some(s))
    else Handle(uri, h, w)
  }

  /** The files of a directory reach only the image and text-file handlers:
      `os.walk` joins every path onto the directory's own path, which does
      not start with "http", and `os.path.isdir("")` is false, so that path
      is not empty. No file of a directory summarizes to `None`. */
  lemma DirectoryFilesAreFiles(uri: string, w: World)
    requires Dispatch.Classify(uri, w.isDir) == Dispatch.Directory
    requires !w.isDir("")
    requires Directory.WalkOf(uri, w.walk(uri))
    ensures var paths := Directory.WalkPaths(w.walk(uri));
      forall i :: 0 <= i < |paths| ==>
        var h := Dispatch.Classify(paths[i], (p: string) => false);
        (h == Dispatch.Image || h == Dispatch.TextFile) && SummarizeFile(paths[i], w) != Ok(None)
  {
    Directory.WalkPathsNotHttp(uri, w.walk(uri));
  }

  /** A directory never raises on its own: when every file is summarized, its
      summary is theirs joined by newlines, in walk order, so the TypeError
      of a `None` in the join is never reached through `summarize_uri`. */
  lemma DirectoryJoinSucceeds(uri: string, w: World)
    requires Dispatch.Classify(uri, w.isDir) == Dispatch.Directory
    requires !w.isDir("")
    requires Directory.WalkOf(uri, w.walk(uri))
    requires forall i :: 0 <= i < |Directory.WalkPaths(w.walk(uri))| ==>
      SummarizeFile(Directory.WalkPaths(w.walk(uri))[i], w).Ok?
    ensures forall i :: 0 <= i < |Directory.WalkPaths(w.walk(uri))| ==>
      SummarizeFile(Directory.WalkPaths(w.walk(uri))[i], w).value.Some?
    ensures var paths := Directory.WalkPaths(w.walk(uri));
      SummarizeUri(uri, w) ==
        Ok(Some(Join(seq(|paths|, i requires 0 <= i < |paths| => SummarizeFile(paths[i], w).value.value), "\n")))
  {
    DirectoryFilesAreFiles(uri, w);
    var child := (p: string) => SummarizeFile(p, w);
    var paths := Directory.WalkPaths(w.walk(uri));
    Directory.DirectorySuccess(w.walk(uri), child);
    var ss1 := seq(|paths|, i requires 0 <= i < |paths| => child(paths[i]).value.value);
    var ss2 := seq(|paths|, i requires 0 <= i < |paths| => SummarizeFile(paths[i], w).value.value);
    assert ss1 == ss2;
  }

  // ----- handle_uri_semaphore and asyncio.gather -----

  /** `handle_uri_semaphore`: the URI paired with its summary. */
  function HandleUri(uri: string, summarize: string -> Result<Option<string>>): Result<(string, Option<string>)> {
    match summarize(uri)
    case Raised(e) => Raised(e)
    case Ok(s) => Ok((uri, s))
  }

  /** `asyncio.gather` over one task per URI: the pairs in input order when
      every task succeeds; otherwise the exception of a task that raised
      (here, the first in input order) and no results at all. */
  function Gather(uris: seq<string>, summarize: string -> Result<Option<string>>): (r: Result<seq<(string, Option<string>)>>)
    ensures r.Ok? <==> forall i :: 0 <= i < |uris| ==> summarize(uris[i]).Ok?
    ensures r.Ok? ==> |r.value| == |uris|
    ensures r.Ok? ==> forall i :: 0 <= i < |uris| ==> r.value[i] == (uris[i], summarize(uris[i]).value)
    ensures r.Raised? ==> exists i :: 0 <= i < |uris| && summarize(uris[i]) == Raised(r.error)
    decreases |uris|
  {
    if uris == [] then Ok([])
    else
      match HandleUri(uris[0], summarize)
      case Raised(e) => Raised(e)
      case Ok(pair) =>
        var rest := Gather(uris[1..], summarize);
        assert forall i :: 1 <= i < |uris| ==> uris[1..][i - 1] == uris[i];
        match rest
        case Raised(e) => Raised(e)
        case Ok(pairs) => Ok([pair] + pairs)
  }

  // ----- output -----

  /** `print(f"URI: {uri}\nSummary:\n{summary}\n")`, `print` adding its newline. */
  function Block(uri: string, summary: Option<string>): string {
    "URI: " + uri + "\nSummary:\n" + Show(summary) + "\n" + "\n"
  }

  /** The block printed for each result, in order. */
  function Blocks(results: seq<(string, Option<string>)>): (r: seq<string>)
    ensures |r| == |results|
  {
    seq(|results|, i requires 0 <= i < |results| => Block(results[i].0, results[i].1))
  }

  /** Everything printed for the results. */
  function Output(results: seq<(string, Option<string>)>): string {
    Concat(Blocks(results))
  }

  /** The printing loop `for uri, summary in results: print(...)`. */
  method PrintResults(results: seq<(string, Option<string>)>) returns (out: string)
    ensures out == Output(results)
  {
    out := "";
    var i := 0;
    while i < |results|
      invariant 0 <= i <= |results|
      invariant out == Output(results[..i])
    {
      var (uri, summary) := results[i];
      assert Blocks(results[..i + 1]) == Blocks(results[..i]) + [Block(uri, summary)];
      ConcatAppend(Blocks(results[..i]), [Block(uri, summary)]);
      out := out + Block(uri, summary);
      i := i + 1;
    }
    assert results[..i] == results;
  }

  /** Printing two runs of results one after the other is printing them together. */
  lemma OutputAppend(a: seq<(string, Option<string>)>, b: seq<(string, Option<string>)>)
    ensures Output(a + b) == Output(a) + Output(b)
  {
    assert Blocks(a + b) == Blocks(a) + Blocks(b);
    ConcatAppend(Blocks(a), Blocks(b));
  }

  /** A text followed by two newlines: its lines, then two empty ones. */
  lemma TwoNewlines(s: string)
    ensures Split(s + "\n" + "\n", '\n') == Split(s, '\n') + ["", ""]
  {
    SplitConcat(s, '\n', "\n");
    SplitPrefix([], '\n', []);
    SplitNone([], '\n');
    assert s + "\n" + "\n" == s + ['\n'] + "\n";
    assert "\n" == [] + ['\n'] + [];
  }

  /** A block's lines: the URI line, "Summary:", the lines of the summary
      (the word None for a missing one), then two empty lines, so that
      consecutive blocks are separated by a blank line. */
  lemma BlockLines(uri: string, summary: Option<string>)
    requires '\n' !in uri
    ensures Split(Block(uri, summary), '\n') == ["URI: " + uri, "Summary:"] + Split(Show(summary), '\n') + ["", ""]
  {
    var s := Show(summary);
    var rest := "Summary:" + ['\n'] + (s + "\n" + "\n");
    assert '\n' !in "URI: ";
    assert Block(uri, summary) == ("URI: " + uri) + ['\n'] + rest;
    SplitPrefix("URI: " + uri, '\n', rest);
    SummaryLines(s);
  }

  /** The "Summary:" line, then the summary's lines and two empty lines. */
  lemma SummaryLines(s: string)
    ensures Split("Summary:" + ['\n'] + (s + "\n" + "\n"), '\n') == ["Summary:"] + Split(s, '\n') + ["", ""]
  {
    assert '\n' !in "Summary:";
    SplitPrefix("Summary:", '\n', s + "\n" + "\n");
    TwoNewlines(s);
  }

  // ----- provider selection and cli -----

  /** The client the provider names, by its model id: "openai" makes the
      OpenAI client with its default model; "bedrock" names a class that is
      never imported (NameError); any other provider fails while building
      its error message, which reads the missing attribute `args.client`. */
  function SelectClient(provider: string): (r: Result<string>)
    ensures r.Ok? <==> provider == "openai"
    ensures r.Ok? ==> r.value == OpenAI.DefaultModelId
    ensures provider == "bedrock" ==> r == Raised(NameError("BedrockClient"))
    ensures provider != "openai" && provider != "bedrock" ==> r == Raised(AttributeError("client"))
  {
    if provider == "openai" then Ok(OpenAI.DefaultModelId)
    else if provider == "bedrock" then Raised(NameError("BedrockClient"))
    else Raised(AttributeError("client"))
  }

  /** `cli`: read the input (a failure to read propagates), pick the client,
      summarize every URI and print the blocks. Nothing is printed unless
      every URI was summarized. */
  function Cli(input: Result<string>, provider: string, summarize: string -> Result<Option<string>>): (r: Result<string>)
    ensures r.Ok? <==>
      && input.Ok?
      && provider == "openai"
      && forall i :: 0 <= i < |ReadUris(input.value)| ==> summarize(ReadUris(input.value)[i]).Ok?
  {
    match input
    case Raised(e) => Raised(e)
    case Ok(text) =>
      match SelectClient(provider)
      case Raised(e) => Raised(e)
      case Ok(_) =>
        match Gather(ReadUris(text), summarize)
        case Raised(e) => Raised(e)
        case Ok(results) => Ok(Output(results))
  }

  /** A provider other than "openai" fails before any URI is summarized:
      the outcome does not depend on the summarizer. */
  lemma UnknownProviderSummarizesNothing(text: string, provider: string,
                                         summarize1: string -> Result<Option<string>>,
                                         summarize2: string -> Result<Option<string>>)
    requires provider != "openai"
    ensures Cli(Ok(text), provider, summarize1) == Cli(Ok(text), provider, summarize2)
    ensures Cli(Ok(text), provider, summarize1).Raised?
  {
  }

  /** When every URI is summarized, the output is one block per input line,
      in input order, each naming the stripped line and its summary. */
  lemma CliPrintsEveryUri(text: string, summarize: string -> Result<Option<string>>)
    requires forall i :: 0 <= i < |ReadUris(text)| ==> summarize(ReadUris(text)[i]).Ok?
    ensures var uris := ReadUris(text);
      Cli(Ok(text), "openai", summarize)
        == Ok(Output(seq(|uris|, i requires 0 <= i < |uris| => (uris[i], summarize(uris[i]).value))))
  {
    var uris := ReadUris(text);
    var pairs := Gather(uris, summarize).value;
    assert pairs == seq(|uris|, i requires 0 <= i < |uris| => (uris[i], summarize(uris[i]).value));
  }
}
