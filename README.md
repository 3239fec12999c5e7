# summarize, modelled in Dafny

`summarize` is a command-line tool. It reads a list of URIs, one per line,
from a file or from standard input. It summarizes each URI with a language
model and prints a block per URI.

A URI can be any of these:
- an Atlassian link (a Jira ticket, a Confluence page or a Confluence space);
- a web page;
- a directory, whose files are summarized one by one and joined;
- an image;
- a text file.

The OpenAI client asks the model for a structured answer and renders it as
Markdown, and one client instance is shared through a class-level
singleton. Its `chunk` method would keep only the first 8192 characters
of a text, but nothing calls it. A `retry`
decorator re-runs an operation a bounded number of times, with random
pauses between attempts.

The model is split into modules:
- `Outcomes`: `Option`, and `Result` with the Python exception raised.
- `Text`: the Python string operations used. These are `startswith`,
  `endswith`, `in`, ASCII `lower`, `strip` over Python's whitespace set,
  `split` on one character, `join`, and line iteration.
- `Dispatch`: how `summarize_uri` chooses a handler, and how
  `summarize_atlassian` chooses its Jira or Confluence call.
- `Directory`: the walk of `summarize_directory` and its join.
- `OpenAI`: the parts of the client that do not talk to the network.
- `Retry`: the retry wrapper.
- `Pipeline`: reading the URIs, `summarize_uri` assembled from its handlers,
  the pairing under `asyncio.gather`, the printed output, and provider
  selection in `cli`.

These collaborators become oracles (function-typed parameters):
- the filesystem (`os.path.isdir`, `os.walk`, reading files, opening images);
- the environment (a map);
- `urlparse` (host and path given);
- the Jira, Confluence and HTTP calls;
- the model's `summarize_text`, `summarize_image` and `responses.parse`;
- `random.uniform`.

Python's exceptions become `Raised(e)` results. `None` summaries are
`Option` values, and an f-string prints them as `None`.

Behaviours of the code worth noting:
- An `http` URI is routed to the Atlassian handler when the text
  `atlassian` occurs anywhere in it. A host such as `wiki.example.com` is
  therefore a plain web page (`Dispatch.NoAtlassianIsWeb`).
- An Atlassian path that matches neither the Jira nor the Confluence
  pattern returns `None`. It is printed as `Summary:\nNone`.
- The credentials are read before the path is routed, so a missing
  variable raises `KeyError` even for such a link.
- A failing URI is not reported as its own result. `asyncio.gather`
  propagates the exception and nothing is printed
  (`Pipeline.Gather`, `Pipeline.Cli`).
- A directory propagates a failing file in the same way
  (`Directory.FirstFailurePropagates`). The newline join would raise
  `TypeError` on a `None` summary (`Directory.AbsentSummaryRaises`), but no
  file of a directory can return `None`. Each file path is its walk root
  joined with its name, and every root begins with the directory's path,
  which does not start with `http`. So every file reaches the image or
  text-file handler (`Pipeline.DirectoryFilesAreFiles`).
- An image PIL cannot save as JPEG (an RGBA or palette PNG, say) raises
  `OSError` before the model is asked (`OpenAI.SummarizeImageRenders`).
- Blank input lines are kept as empty URIs (`Pipeline.BlankLineKept`).
- The provider `bedrock` names an unimported class (`NameError`). Any other
  provider fails with `AttributeError` while the error message reads
  `args.client`, so `NotImplementedError` is never raised.
- `retry` is defined but not applied anywhere in the CLI.
- `chunk` is defined but never called. `summarize_text` sends every text
  to the model whole (`OpenAI.SummarizeTextRenders`), however long it is.

## Model

| member | source | states |
|---|---|---|
| Pipeline.ReadUris | src/summarize/main.py:18-25 | one URI per line of the input: line i with its surrounding whitespace removed, so the URI has no whitespace at either end and only whitespace stood around it in its line |
| Pipeline.ReadUrisCount | src/summarize/main.py:19 | the number of URIs is the number of newlines, plus one when the last line is unterminated |
| Pipeline.BlankLineKept | src/summarize/main.py:25 | a URI is empty exactly when its line is all whitespace; such lines are kept, not dropped |
| Pipeline.ReadUriOneLine | src/summarize/main.py:25 | no URI read back contains a newline |
| Pipeline.ReadUrisRoundTrip | src/summarize/main.py:22-25 | reading a file that lists trimmed single-line URIs, each newline-terminated, gives back exactly those URIs |
| Text.StripUnique | src/summarize/main.py:25 | `strip()` gives the one text that has no whitespace at either end and is surrounded in the line only by whitespace |
| Text.StripIdempotent | src/summarize/main.py:25 | stripping a stripped line changes nothing |
| Dispatch.Classify | src/summarize/main.py:28-38 | the handler chosen is Atlassian, web, directory, image or text file; each holds exactly when its test holds and every earlier test failed |
| Dispatch.HttpBeforeFilesystem | src/summarize/main.py:29-32 | an `http` URI is routed without consulting the filesystem |
| Dispatch.DirectoryBeforeImage | src/summarize/main.py:33-36 | a directory whose name has an image extension is still summarized as a directory |
| Dispatch.AtlassianAnywhere | src/summarize/main.py:30 | `atlassian` anywhere after the `http` prefix routes the URI to the Atlassian handler |
| Dispatch.ImageExtensionAnyCase | src/summarize/main.py:35 | the image test ignores the case of the extension |
| Dispatch.NoAtlassianIsWeb | src/summarize/main.py:29-32 | an `http` URI lacking a character of `atlassian` is a web page |
| Dispatch.FileNameExamples | src/summarize/main.py:35-38 | `photo.JPG` is an image; `notes.txt` is a text file |
| Dispatch.AtlassianRoute | src/summarize/main.py:46-63 | a Jira issue exactly when the path holds `/browse/`; otherwise a Confluence page or space exactly when it holds `/wiki/spaces/`, a page exactly when it also holds `pages`; ids are the URI's last `/` piece; otherwise no route |
| Dispatch.SpaceFieldExists | src/summarize/main.py:61 | when the path holds `/wiki/spaces/`, `path.split('/')[3]` is in range |
| Text.LastPieceIsTail | src/summarize/main.py:48 | `uri.split('/')[-1]` holds no slash and ends the URI; it is the whole URI, or it follows the URI's last slash, and it is the whole URI when there is no slash |
| Dispatch.JiraTicketId | src/summarize/main.py:48 | the ticket id is the text after the URI's last slash |
| Dispatch.ConfluencePageId | src/summarize/main.py:58 | the page id is the text after the URI's last slash |
| Dispatch.SpaceKey | src/summarize/main.py:61 | for a path `/wiki/spaces/KEY/...` the space key is `KEY` |
| Dispatch.SummarizeAtlassian | src/summarize/main.py:40-64 | a missing username or API key variable raises KeyError before routing; no route gives `None`; a routed call returns the summary of the fetched text, and an exception of the fetch or of the summarizer propagates |
| Dispatch.NoRouteNoCalls | src/summarize/main.py:46-64 | an unrouted path calls neither Atlassian nor the model, and raises only for missing credentials |
| Directory.Collect | src/summarize/main.py:74-78 | summaries in walk order, one per file, exactly when no file raises |
| Directory.SummarizeDirectory | src/summarize/main.py:72-79 | the nested loop returns the reference outcome and calls the files in walk order, stopping at the first that raises |
| Directory.DirectorySuccess | src/summarize/main.py:72-79 | when every file has a summary, the result is those summaries joined by newlines and every file was called |
| Directory.AbsentSummaryRaises | src/summarize/main.py:79 | a `None` summary makes the newline join raise TypeError |
| Directory.FirstFailurePropagates | src/summarize/main.py:74-78 | the first file that raises decides the outcome, and no later file is called |
| Pipeline.SummarizeUri | src/summarize/main.py:28-38 | `None` comes only from an Atlassian link; a directory's outcome is its walk summarized file by file; every other URI gets the outcome of the handler the classification picks |
| Pipeline.Handle | src/summarize/main.py:66-88 | the web and text-file handlers fetch or read, then summarize the text; the image handler opens the image, then summarizes it; each step's exception propagates; only the Atlassian handler can return `None` |
| Directory.WalkPathsNotHttp | src/summarize/main.py:74-76 | every path joined from a walk of a non-empty directory path that does not start with `http` does not start with `http` either |
| Pipeline.DirectoryFilesAreFiles | src/summarize/main.py:29-38 | every file of a directory reaches the image or the text-file handler, and none summarizes to `None` |
| Pipeline.DirectoryJoinSucceeds | src/summarize/main.py:72-79 | when every file of a directory is summarized, the directory's summary is theirs joined by newlines; the join never raises |
| Pipeline.Gather | src/summarize/main.py:91-94 | Ok exactly when every URI is summarized; then the pairs are (URI, its summary) in input order; otherwise the error of a URI that raised |
| Pipeline.PrintResults | src/summarize/main.py:123-124 | the printing loop writes the blocks of the results in order |
| Pipeline.OutputAppend | src/summarize/main.py:123-124 | printing two runs of results writes the first run's blocks, then the second's |
| Pipeline.BlockLines | src/summarize/main.py:124 | a block is the `URI:` line, `Summary:`, the summary's lines (or `None`) and two empty lines |
| Pipeline.SelectClient | src/summarize/main.py:111-116 | only `openai` gives a client, with model `gpt-4o-mini`; `bedrock` raises NameError; anything else raises AttributeError |
| Pipeline.Cli | src/summarize/main.py:97-124 | output exactly when the input was read, the provider is `openai` and every URI was summarized |
| Pipeline.UnknownProviderSummarizesNothing | src/summarize/main.py:111-120 | another provider raises whatever the summarizer would do |
| Pipeline.CliPrintsEveryUri | src/summarize/main.py:105-124 | when every URI succeeds the output is one block per input line, in input order |
| OpenAI.RenderLayout | src/summarize/clients/openai.py:23-38 | for single-line fields, the rendered summary has 14 lines: the heading, author, publish date, content type, language, tags and summary, each followed by a blank line |
| OpenAI.ReadOptionalLine | src/summarize/clients/openai.py:25-26 | an author or date line keeps a non-empty value; `None`, `""` and `Not specified` all read back as missing |
| OpenAI.Chunks | src/summarize/clients/openai.py:52 | the number of chunks is the length divided by 8192, rounded up |
| OpenAI.ChunksConcat | src/summarize/clients/openai.py:52 | the chunks concatenated are the text |
| OpenAI.ChunkSizes | src/summarize/clients/openai.py:52 | each chunk but the last has exactly 8192 characters; the last has 1 to 8192 |
| OpenAI.Chunk | src/summarize/clients/openai.py:50-53 | an empty text raises IndexError; otherwise the single kept chunk is its first 8192 characters |
| OpenAI.ChunkIsPrefix | src/summarize/clients/openai.py:50-53 | the kept chunk is a non-empty prefix of at most 8192 characters, and all of the text exactly when the text fits |
| OpenAI.BuildRequest | src/summarize/clients/openai.py:80-95 | ValueError exactly for a data type other than `text` and `image`; `text` sends the content with the fixed instruction; `image` raises OSError when the image cannot be saved as JPEG and otherwise sends its data URL with the prompt; the model id is kept |
| OpenAI.HandleSummary | src/summarize/clients/openai.py:61-108 | no API key raises; an unsupported data type raises ValueError; success is the rendering of the model's answer to the built request |
| OpenAI.UnsupportedMakesNoRequest | src/summarize/clients/openai.py:94-95 | an unsupported data type raises before the model is asked |
| OpenAI.SummarizeTextRenders | src/summarize/clients/openai.py:55-56 | `summarize_text`'s outcome is the model's answer to the text request, rendered |
| OpenAI.SummarizeImageRenders | src/summarize/clients/openai.py:58-108 | `summarize_image` raises OSError for an image that cannot be saved as JPEG; otherwise it sends the JPEG data URL with the prompt and its outcome is the model's answer, rendered |
| OpenAI.OpenAIClientClass.New | src/summarize/clients/openai.py:44-48 | the first construction makes a fresh instance with the given model id; later ones return that instance unchanged |
| OpenAI.ConstructTwice | src/summarize/clients/openai.py:44-48 | two constructions return one object, with the first construction's model id |
| Retry.RetryCall | src/summarize/decorators.py:8-31 | the loop's result, attempt count and sleep count are the reference run's; each delay is the next `random.uniform` draw between the two bounds |
| Retry.FailuresThenSuccess | src/summarize/decorators.py:16-24 | after f failures then a success, the value is returned exactly when f is below the budget, after min(f+1, budget) attempts; it sleeps f times on success and budget-1 times on exhaustion |
| Retry.AllFail | src/summarize/decorators.py:16-27 | an always-failing operation is tried budget times with budget-1 sleeps and the default is returned |
| Retry.RunShape | src/summarize/decorators.py:16-27 | every run is failures followed by either one success, whose value is returned, or exhaustion of the budget, returning the default |
| Retry.DefaultIsAmbiguous | src/summarize/decorators.py:8 | with the default `False`, an operation returning `False` cannot be told apart from one that always fails |

## Left out

- Concurrency: `asyncio`, the semaphores (`--concurrency` and the client's five permits) and the order in which tasks finish are not modelled. Every task runs to its outcome, and URIs are processed in input order.
- Pipeline.Gather: returns the error of the first failing URI in input order. `asyncio.gather` raises the exception that occurs first in time, so the contract only promises the error of some URI that raised.
- `urlparse` is not modelled. The host and path of an Atlassian URI are oracles.
- Jira issue assembly (summary, description and comments) and the concatenation of Confluence page bodies are not modelled. The fetched text is an oracle, because those are Atlassian client calls.
- File and network I/O are oracles: reading with `errors="ignore"`, `Image.open`, the HTTP GET and `raise_for_status`. The universal-newline mode in which `read_uris_from_file` opens its file is also left out: there `\r\n` and a lone `\r` end a line too, so `"a\rb\n"` gives two URIs in the source and one in the model. Lines are split at `\n` only, which is exact for standard input on POSIX.
- The JPEG re-encoding and base64 of an image are an oracle (`encodeJpeg`). Its one failure is an image PIL cannot write as JPEG, which raises `OSError`.
- The image prompt text, with today's date and the JSON example, is a parameter, because it depends on the clock.
- Logging is not modelled.
- `Text.Lower` lower-cases ASCII letters only. Python's full Unicode case mapping is not modelled.
- Retry.RetryCall: the distribution of `random.uniform` is not modelled. Only the range constraint on each draw is kept. `asyncio.sleep` is recorded as a delay, not performed.
- Retry.RetryCall: exceptions outside `Exception` (a `BaseException` such as cancellation) would not be retried. They are not modelled; an attempt either succeeds or fails.
- Directory.WalkOf: the walk oracle may list any roots. That `os.walk` joins every root onto the directory path and lists plain file names is a precondition of `Pipeline.DirectoryFilesAreFiles` and `Pipeline.DirectoryJoinSucceeds`, as is `os.path.isdir("")` being false.
- Pipeline.SummarizeUri: each path from the walk is summarized with the directory test answering no, because `os.walk` lists directories apart from files. The recursion is therefore one level deep.
- The OpenAI construction failure without an API key is a single `CollaboratorError`, as are all failures raised by code outside the core.
- `main`, argument parsing and `--concurrency` are not modelled. The CLI takes the input text (or the read failure) and the provider directly.
