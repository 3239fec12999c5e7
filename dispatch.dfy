/** How one URI is sent to a handler (`summarize_uri`) and, for Atlassian
    URIs, which Jira or Confluence call is made (`summarize_atlassian`).

    The filesystem test `os.path.isdir` is the oracle `isDir`; `urlparse` is
    not modelled: its `netloc` and `path` are given as `host` and `path`. */
module Dispatch {
  import opened Text
  import opened Outcomes

  /** The five handlers `summarize_uri` can hand a URI to. */
  datatype Handler = Atlassian | Web | Directory | Image | TextFile

  /** `uri.lower().endswith(('.jpg', '.jpeg', '.png'))` */
  predicate HasImageExtension(uri: string) {
    var l := Lower(uri);
    EndsWith(l, ".jpg") || EndsWith(l, ".jpeg") || EndsWith(l, ".png")
  }

  /** The handler `summarize_uri` calls: the first test of an ordered chain
      that succeeds. Every URI reaches exactly one handler, and the
      directory oracle is consulted only for URIs not starting with "http". */
  function Classify(uri: string, isDir: string -> bool): (h: Handler)
    ensures h == Atlassian <==> StartsWith(uri, "http") && Contains(uri, "atlassian")
    ensures h == Web <==> StartsWith(uri, "http") && !Contains(uri, "atlassian")
    ensures h == Directory <==> !StartsWith(uri, "http") && isDir(uri)
    ensures h == Image <==> !StartsWith(uri, "http") && !isDir(uri) && HasImageExtension(uri)
    ensures h == TextFile <==> !StartsWith(uri, "http") && !isDir(uri) && !HasImageExtension(uri)
  {
    if StartsWith(uri, "http") then
      if Contains(uri, "atlassian") then Atlassian else Web
    else if isDir(uri) then Directory
    else if HasImageExtension(uri) then Image
    else TextFile
  }

  /** An "http" URI is classified without looking at the filesystem: whatever
      the directory oracle says, it goes to the Atlassian or the web handler. */
  lemma HttpBeforeFilesystem(uri: string, isDir1: string -> bool, isDir2: string -> bool)
    requires StartsWith(uri, "http")
    ensures Classify(uri, isDir1) == Classify(uri, isDir2)
    ensures Classify(uri, isDir1) in {Atlassian, Web}
  {
  }

  /** For other URIs a directory wins whatever its name, even one that ends
      in an image extension. */
  lemma DirectoryBeforeImage(uri: string, isDir: string -> bool)
    requires !StartsWith(uri, "http") && isDir(uri) && HasImageExtension(uri)
    ensures Classify(uri, isDir) == Directory
  {
  }

  /** The "atlassian" substring counts wherever it stands in an http URI:
      in the host, the path or the query. */
  lemma AtlassianAnywhere(front: string, back: string, isDir: string -> bool)
    requires StartsWith(front, "http")
    ensures Classify(front + "atlassian" + back, isDir) == Atlassian
  {
    var uri := front + "atlassian" + back;
    assert uri[..|"http"|] == front[..|"http"|];
    assert uri[|front|..|front| + |"atlassian"|] == "atlassian";
    ContainsAt(uri, "atlassian", |front|);
  }

  /** The image test ignores the case of the extension: a file name ending in
      any spelling of ".jpg", ".jpeg" or ".png" (".JPG", ".Png", ...) is an image. */
  lemma ImageExtensionAnyCase(stem: string, ext: string)
    requires Lower(ext) == ".jpg" || Lower(ext) == ".jpeg" || Lower(ext) == ".png"
    ensures HasImageExtension(stem + ext)
  {
    var uri := stem + ext;
    LowerSuffix(uri, |stem|);
    assert uri[|stem|..] == ext;
    assert Lower(uri)[|Lower(uri)| - |Lower(ext)|..] == Lower(ext);
  }

  /** Every character of a substring occurs in the string: so a URI lacking
      one of the characters of "atlassian" cannot contain it. */
  lemma {:induction false} ContainedCharsOccur(s: string, p: string, c: char)
    requires c in p
    ensures Contains(s, p) ==> c in s
    decreases |s|
  {
    if StartsWith(s, p) {
      var j :| 0 <= j < |p| && p[j] == c;
      assert s[j] == s[..|p|][j];
    } else if |s| > 0 {
      ContainedCharsOccur(s[1..], p, c);
      assert c in s[1..] ==> c in s;
    }
  }

  /** An http URI lacking any one character of "atlassian" goes to the web
      handler, whatever its path says: "https://wiki.example.com/spaces/X/pages/123"
      has no 'n', so this wiki link is fetched as a plain web page. */
  lemma NoAtlassianIsWeb(uri: string, c: char, isDir: string -> bool)
    requires StartsWith(uri, "http") && c in "atlassian" && c !in uri
    ensures Classify(uri, isDir) == Web
  {
    ContainedCharsOccur(uri, "atlassian", c);
  }

  /** An upper-case extension is an image; a ".txt" name is a text file. */
  lemma FileNameExamples(isDir: string -> bool)
    requires !isDir("photo.JPG") && !isDir("notes.txt")
    ensures Classify("photo.JPG", isDir) == Image
    ensures Classify("notes.txt", isDir) == TextFile
  {
    assert "photo" + ".JPG" == "photo.JPG";
    assert Lower(".JPG") == ".jpg" by {
      assert |Lower(".JPG")| == 4;
      assert Lower(".JPG")[0] == '.' && Lower(".JPG")[1] == 'j' && Lower(".JPG")[2] == 'p' && Lower(".JPG")[3] == 'g';
    }
    ImageExtensionAnyCase("photo", ".JPG");
    assert "notes.txt"[..4][0] != "http"[0];
    assert "photo.JPG"[..4][0] != "http"[0];
    var l := Lower("notes.txt");
    assert l[4] == 's' && l[6] == 't';
    assert l[5..][1] == 't' && l[4..][0] == 's';
  }

  // ----- Atlassian sub-routing -----

  /** The Jira or Confluence request `summarize_atlassian` makes. */
  datatype AtlassianCall =
    | JiraIssue(ticketId: string)        // `jira_client.issue(ticket_id)` and its comments
    | ConfluencePage(pageId: string)     // `get_page_by_id(page_id, ...)`
    | ConfluenceSpace(spaceKey: string)  // `get_all_pages_from_space(space_key, ...)`

  /** A path with "/wiki/spaces/" in it has at least four '/'-separated
      fields, so `path.split('/')[3]` never fails. */
  lemma {:induction false} SpaceFieldExists(path: string)
    requires Contains(path, "/wiki/spaces/")
    ensures |Split(path, '/')| >= 4
  {
    ContainsHasPosition(path, "/wiki/spaces/");
    var i: nat :| OccursAt(path, "/wiki/spaces/", i);
    var rest := path[i + 13..];
    assert path == path[..i] + ("/wiki/spaces/" + rest);
    SplitGrows("/wiki/spaces/" + rest, '/', path[..i]);
    SpacesPrefix(rest);
  }

  /** How a path beginning "/wiki/spaces/" splits. */
  lemma SpacesPrefix(rest: string)
    ensures Split("/wiki/spaces/" + rest, '/') == ["", "wiki", "spaces"] + Split(rest, '/')
  {
    assert "/wiki/spaces/" + rest == "" + ['/'] + ("wiki" + ['/'] + ("spaces" + ['/'] + rest));
    SplitPrefix("spaces", '/', rest);
    SplitPrefix("wiki", '/', "spaces" + ['/'] + rest);
    SplitPrefix("", '/', "wiki" + ['/'] + ("spaces" + ['/'] + rest));
  }

  /** The call chosen from the parsed path: "/browse/" is tested first, then
      "/wiki/spaces/" (with "pages" telling a page from a whole space); the
      ticket and page ids are the last '/'-field of the whole URI, the space
      key the field at index 3 of the path. `None` is the fall-through of the
      source, which makes no call. */
  function AtlassianRoute(uri: string, path: string): (r: Option<AtlassianCall>)
    ensures r.Some? && r.value.JiraIssue? <==> Contains(path, "/browse/")
    ensures r.Some? && r.value.ConfluencePage? <==>
      !Contains(path, "/browse/") && Contains(path, "/wiki/spaces/") && Contains(path, "pages")
    ensures r.Some? && r.value.ConfluenceSpace? <==>
      !Contains(path, "/browse/") && Contains(path, "/wiki/spaces/") && !Contains(path, "pages")
    ensures r.None? <==> !Contains(path, "/browse/") && !Contains(path, "/wiki/spaces/")
    ensures r.Some? && r.value.JiraIssue? ==> r.value.ticketId == LastPiece(uri, '/')
    ensures r.Some? && r.value.ConfluencePage? ==> r.value.pageId == LastPiece(uri, '/')
  {
    if Contains(path, "/browse/") then
      Some(JiraIssue(LastPiece(uri, '/')))
    else if Contains(path, "/wiki/spaces/") then
      if Contains(path, "pages") then
        Some(ConfluencePage(LastPiece(uri, '/')))
      else
        SpaceFieldExists(path);
        Some(ConfluenceSpace(Split(path, '/')[3]))
    else
      None
  }

  /** The last '/'-field of `front + "/" + tail` is `tail` when `tail` has no
      '/': the id is everything after the last slash, query string included. */
  lemma LastPieceAfterSlash(front: string, tail: string)
    requires '/' !in tail
    ensures LastPiece(front + "/" + tail, '/') == tail
  {
    assert front + "/" + tail == front + ['/'] + tail;
    SplitConcat(front, '/', tail);
    SplitNone(tail, '/');
  }

  /** A Jira link's ticket id is the text after the URI's last slash. */
  lemma JiraTicketId(front: string, tail: string, path: string)
    requires '/' !in tail && Contains(path, "/browse/")
    ensures AtlassianRoute(front + "/" + tail, path) == Some(JiraIssue(tail))
  {
    LastPieceAfterSlash(front, tail);
  }

  /** A Confluence page link's page id is the text after the URI's last slash. */
  lemma ConfluencePageId(front: string, tail: string, path: string)
    requires '/' !in tail
    requires !Contains(path, "/browse/") && Contains(path, "/wiki/spaces/") && Contains(path, "pages")
    ensures AtlassianRoute(front + "/" + tail, path) == Some(ConfluencePage(tail))
  {
    LastPieceAfterSlash(front, tail);
  }

  /** The first '/'-field of KEY or KEY/... is KEY. */
  lemma FirstField(key: string, rest: string)
    requires '/' !in key && (rest == "" || rest[0] == '/')
    ensures Split(key + rest, '/')[0] == key
  {
    if rest == "" {
      assert key + rest == key;
      SplitNone(key, '/');
    } else {
      FieldBeforeSlash(key, rest);
    }
  }

  lemma FieldBeforeSlash(key: string, rest: string)
    requires '/' !in key && |rest| > 0 && rest[0] == '/'
    ensures Split(key + rest, '/')[0] == key
  {
    SplitBefore(key, '/', rest);
  }

  /** The field at index 3 of "/wiki/spaces/" + tail is the first field of tail. */
  lemma SpaceKeyField(tail: string)
    ensures |Split("/wiki/spaces/" + tail, '/')| > 3
    ensures Split("/wiki/spaces/" + tail, '/')[3] == Split(tail, '/')[0]
  {
    SpacesPrefix(tail);
  }

  /** For a path "/wiki/spaces/KEY" or "/wiki/spaces/KEY/..." without
      "pages" or "/browse/" in it, the space key is KEY. */
  lemma SpaceKey(uri: string, key: string, rest: string)
    requires '/' !in key && (rest == "" || rest[0] == '/')
    requires !Contains("/wiki/spaces/" + (key + rest), "/browse/")
    requires !Contains("/wiki/spaces/" + (key + rest), "pages")
    ensures AtlassianRoute(uri, "/wiki/spaces/" + (key + rest)) == Some(ConfluenceSpace(key))
  {
    var path := "/wiki/spaces/" + (key + rest);
    assert OccursAt(path, "/wiki/spaces/", 0);
    ContainsAt(path, "/wiki/spaces/", 0);
    SpaceKeyField(key + rest);
    FirstField(key, rest);
  }

  /** The environment variables read for Atlassian credentials. */
  const UsernameVariable := "CONFLUENCE_API_USERNAME"
  const ApiKeyVariable := "CONFLUENCE_API_KEY"

  /** What the Atlassian client needs to connect: `https://` + host and the credentials. */
  datatype Site = Site(url: string, username: string, password: string)

  /** `summarize_atlassian`: read the credentials (a missing variable raises
      KeyError before any routing), route the path, fetch the ticket or
      page text and summarize it. A path matching no pattern yields `None`.
      The fetched text stands for the content the source assembles from the
      Jira or Confluence response. */
  function SummarizeAtlassian(
    uri: string, host: string, path: string, env: map<string, string>,
    fetch: (Site, AtlassianCall) -> Result<string>,
    summarizeText: string -> Result<string>): (r: Result<Option<string>>)
    ensures UsernameVariable !in env ==> r == Raised(KeyError(UsernameVariable))
    ensures UsernameVariable in env && ApiKeyVariable !in env ==> r == Raised(KeyError(ApiKeyVariable))
    ensures r == Ok(None) <==>
      UsernameVariable in env && ApiKeyVariable in env && AtlassianRoute(uri, path).None?
    ensures r.Ok? && r.value.Some? ==>
      AtlassianRoute(uri, path).Some? &&
      var content := fetch(Site("https://" + host, env[UsernameVariable], env[ApiKeyVariable]), AtlassianRoute(uri, path).value);
      content.Ok? && summarizeText(content.value) == Ok(r.value.value)
    ensures UsernameVariable in env && ApiKeyVariable in env && AtlassianRoute(uri, path).Some? ==>
      var content := fetch(Site("https://" + host, env[UsernameVariable], env[ApiKeyVariable]), AtlassianRoute(uri, path).value);
      && (content.Raised? ==> r == Raised(content.error))
      && (content.Ok? && summarizeText(content.value).Raised? ==> r == Raised(summarizeText(content.value).error))
      && (content.Ok? && summarizeText(content.value).Ok? ==> r == Ok(Some(summarizeText(content.value).value)))
  {
    if UsernameVariable !in env then Raised(KeyError(UsernameVariable))
    else if ApiKeyVariable !in env then Raised(KeyError(ApiKeyVariable))
    else
      match AtlassianRoute(uri, path)
      case None => Ok(None)
      case Some(call) =>
        var site := Site("https://" + host, env[UsernameVariable], env[ApiKeyVariable]);
        match fetch(site, call)
        case Raised(e) => Raised(e)
        case Ok(content) =>
          match summarizeText(content)
          case Raised(e) => Raised(e)
          case Ok(summary) => Ok(Some(summary))
  }

  /** A path matching neither pattern makes no request and no summarize call:
      the result does not depend on the fetcher nor on the summarizer. */
  lemma NoRouteNoCalls(
    uri: string, host: string, path: string, env: map<string, string>,
    fetch1: (Site, AtlassianCall) -> Result<string>, fetch2: (Site, AtlassianCall) -> Result<string>,
    summarize1: string -> Result<string>, summarize2: string -> Result<string>)
    requires !Contains(path, "/browse/") && !Contains(path, "/wiki/spaces/")
    ensures SummarizeAtlassian(uri, host, path, env, fetch1, summarize1)
         == SummarizeAtlassian(uri, host, path, env, fetch2, summarize2)
    ensures SummarizeAtlassian(uri, host, path, env, fetch1, summarize1).Raised? <==>
      UsernameVariable !in env || ApiKeyVariable !in env
  {
  }
}
