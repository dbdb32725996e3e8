/**
 * The application object: the install folder, the downloaded project list
 * and what the window shows of them, the progress bar and the message
 * boxes, with the operations behind its buttons. Threads are collapsed:
 * each operation runs to completion when it is started.
 */
module Installer {
  import opened Wrappers
  import opened Strings
  import opened RepoName
  import opened Urls
  import opened Download
  import opened Projects

  /** The answer to the GET of the project list: no connection, or a status and a body that may not parse as JSON. */
  datatype ApiResponse = ApiUnreachable(reason: string) | ApiReply(status: int, body: Option<Json>)

  /** Why the project list could not be shown. */
  datatype ListFault = NoConnection(reason: string) | ListHttpError(status: int) | BadJson | NotProjects

  /** The "My Projects" tab: the loading note, the cards, or the red error label. */
  datatype Listing = Loading | Cards(cards: seq<Card>) | LoadError(fault: ListFault)

  /** A message box: the missing-URL warning, or the end of a download. */
  datatype Message = MissingUrl | Finished(outcome: Outcome)

  /**
   * What the project tab shows once the list has been fetched: never the
   * loading note, and cards exactly when the API answered without an error
   * status with JSON that can be shown; those cards are the ones
   * `display_projects` builds from the fetched body.
   */
  function FetchedListing(reply: ApiResponse): (view: Listing)
    ensures view != Loading
    ensures view.Cards? <==>
      && reply.ApiReply? && !IsHttpError(reply.status) && reply.body.Some?
      && Display(reply.body.value).Some?
    ensures view.Cards? ==> view.cards == Display(reply.body.value).value
  {
    match reply
    case ApiUnreachable(reason) => LoadError(NoConnection(reason))
    case ApiReply(status, body) =>
      if IsHttpError(status) then LoadError(ListHttpError(status))
      else if body.None? then LoadError(BadJson)
      else
        match Display(body.value)
        case Some(cards) => Cards(cards)
        case None => LoadError(NotProjects)
  }

  /**
   * The stored project list after a fetch: replaced by any body that
   * parsed, even one that cannot be shown, and kept when the API cannot be
   * reached, answers with an error status or sends unparsable JSON;
   * whenever cards are shown they are those of the stored list.
   */
  function FetchedProjects(reply: ApiResponse, previous: Json): (stored: Json)
    ensures FetchedListing(reply).Cards? ==> Display(stored) == Some(FetchedListing(reply).cards)
    ensures reply.ApiUnreachable? || (reply.ApiReply? && IsHttpError(reply.status)) ==> stored == previous
    ensures reply.ApiReply? && reply.body.None? ==> stored == previous
    ensures reply.ApiReply? && !IsHttpError(reply.status) && reply.body.Some? ==> stored == reply.body.value
  {
    if reply.ApiReply? && !IsHttpError(reply.status) && reply.body.Some? then reply.body.value else previous
  }

  class App {
    var installPath: string
    var folderText: string
    var projects: Json
    var listing: Listing
    /** The progress bar's value, from 0 to 100. */
    var progress: real
    var status: string
    /** Every `update_progress` call so far, in order. */
    var history: seq<Event>
    var messages: seq<Message>

    /** The window as it opens in the working folder `cwd`, with the project list being loaded. */
    constructor(cwd: string)
      ensures installPath == cwd && folderText == "Download Path: " + cwd
      ensures projects == JArray([]) && listing == Loading
      ensures progress == 0.0 && status == "Ready" && history == [] && messages == []
    {
      installPath := cwd;
      folderText := "Download Path: " + cwd;
      projects := JArray([]);
      listing := Loading;
      progress := 0.0;
      status := "Ready";
      history := [];
      messages := [];
    }

    /** The folder chosen in the dialog becomes the install folder; a cancelled dialog (empty answer) changes nothing. */
    method SelectFolder(chosen: string)
      modifies this
      ensures chosen != [] ==> installPath == chosen && folderText == "Install Path: " + chosen
      ensures chosen == [] ==> installPath == old(installPath) && folderText == old(folderText)
      ensures projects == old(projects) && listing == old(listing)
      ensures progress == old(progress) && status == old(status)
      ensures history == old(history) && messages == old(messages)
    {
      if chosen != [] {
        installPath := chosen;
        folderText := "Install Path: " + chosen;
      }
    }

    /** `update_progress`: the bar shows `value` as a percentage and the status line `text`. */
    method UpdateProgress(value: real, text: string)
      modifies this
      ensures progress == value * 100.0 && status == text
      ensures history == old(history) + [Event(value, text)]
      ensures installPath == old(installPath) && folderText == old(folderText)
      ensures projects == old(projects) && listing == old(listing) && messages == old(messages)
    {
      progress := value * 100.0;
      status := text;
      history := history + [Event(value, text)];
    }

    /**
     * `download_and_extract`: fetch the archive of `repoUrl` chunk by chunk
     * into a buffer, extract it into the install folder, and show every
     * step on the progress bar.
     */
    method DownloadAndExtract(repoUrl: string, net: string -> Response, extract: (seq<bv8>, string) -> Option<string>)
      modifies this
      ensures history == old(history) + Install(repoUrl, net, extract, installPath).events
      ensures messages == old(messages) + [Finished(Install(repoUrl, net, extract, installPath).outcome)]
      ensures var last := history[|history| - 1]; progress == last.fraction * 100.0 && status == last.text
      ensures installPath == old(installPath) && folderText == old(folderText)
      ensures projects == old(projects) && listing == old(listing)
    {
      UpdateProgress(0.05, "Downloading repository...");
      var name := GetRepoName(repoUrl);
      var reply := net(ArchiveUrl(repoUrl));
      HandleReply(name, reply, extract);
    }

    /** The rest of `download_and_extract`, once the GET of the archive URL has answered `reply`. */
    method HandleReply(name: string, reply: Response, extract: (seq<bv8>, string) -> Option<string>)
      modifies this
      ensures history == old(history) + Settle(name, reply, extract, installPath).events
      ensures messages == old(messages) + [Finished(Settle(name, reply, extract, installPath).outcome)]
      ensures var last := history[|history| - 1]; progress == last.fraction * 100.0 && status == last.text
      ensures installPath == old(installPath) && folderText == old(folderText)
      ensures projects == old(projects) && listing == old(listing)
    {
      ghost var report := Settle(name, reply, extract, installPath);
      if reply.Unreachable? {
        assert report == Report([ErrorShown], Failed(ConnectionFailed(reply.reason)));
        ShowFailure(ConnectionFailed(reply.reason));
        return;
      }
      if IsHttpError(reply.status) {
        assert report == Report([ErrorShown], Failed(HttpError(reply.status)));
        ShowFailure(HttpError(reply.status));
        return;
      }
      if reply.length.Unparsable? {
        assert report == Report([ErrorShown], Failed(BadLength));
        ShowFailure(BadLength);
        return;
      }
      var total := DeclaredTotal(reply.length).value;
      ghost var progressed := ChunkEvents(reply.chunks, name, total);
      var buffer := ReceiveChunks(reply.chunks, name, total);
      if reply.broken.Some? {
        assert report == Report(progressed + [ErrorShown], Failed(StreamBroken(reply.broken.value)));
        ShowFailure(StreamBroken(reply.broken.value));
        return;
      }
      buffer.Rewind();
      var failure := extract(buffer.data, installPath);
      if failure.Some? {
        assert report == Report(progressed + [ErrorShown], Failed(ExtractFailed(failure.value)));
        ShowFailure(ExtractFailed(failure.value));
        return;
      }
      assert report == Report(progressed + [Done], Installed(name));
      UpdateProgress(1.0, "Done!");
      messages := messages + [Finished(Installed(name))];
    }

    /** The `except` branch of `download_and_extract`: the error box and the "Error" event. */
    method ShowFailure(fault: Fault)
      modifies this
      ensures history == old(history) + [ErrorShown] && progress == 0.0 && status == ErrorShown.text
      ensures messages == old(messages) + [Finished(Failed(fault))]
      ensures installPath == old(installPath) && folderText == old(folderText)
      ensures projects == old(projects) && listing == old(listing)
    {
      messages := messages + [Finished(Failed(fault))];
      UpdateProgress(0.0, "Error");
    }

    /**
     * The chunk loop of `download_and_extract`: every non-empty chunk is
     * written to a fresh buffer and, when a length was declared, shown as
     * progress under the repository's name.
     */
    method ReceiveChunks(chunks: seq<Chunk>, name: string, total: int) returns (buffer: ByteBuffer)
      modifies this
      ensures fresh(buffer) && buffer.Valid()
      ensures buffer.data == Flatten(chunks) && buffer.pos == |buffer.data|
      ensures history == old(history) + ChunkEvents(chunks, name, total)
      ensures ChunkEvents(chunks, name, total) == [] ==> progress == old(progress) && status == old(status)
      ensures ChunkEvents(chunks, name, total) != [] ==>
        var last := history[|history| - 1]; progress == last.fraction * 100.0 && status == last.text
      ensures messages == old(messages)
      ensures installPath == old(installPath) && folderText == old(folderText)
      ensures projects == old(projects) && listing == old(listing)
    {
      var downloaded := 0;
      buffer := new ByteBuffer();
      var i := 0;
      while i < |chunks|
        invariant 0 <= i <= |chunks|
        invariant fresh(buffer) && buffer.Valid() && buffer.pos == |buffer.data|
        invariant buffer.data == Flatten(chunks[..i])
        invariant downloaded == |buffer.data|
        invariant history == old(history) + ChunkEvents(chunks[..i], name, total)
        invariant ChunkEvents(chunks[..i], name, total) == [] ==> progress == old(progress) && status == old(status)
        invariant ChunkEvents(chunks[..i], name, total) != [] ==>
          var last := history[|history| - 1]; progress == last.fraction * 100.0 && status == last.text
        invariant messages == old(messages)
        invariant installPath == old(installPath) && folderText == old(folderText)
        invariant projects == old(projects) && listing == old(listing)
      {
        var chunk := chunks[i];
        assert chunks[..i + 1][..i] == chunks[..i];
        assert Flatten(chunks[..i + 1]) == Flatten(chunks[..i]) + chunk;
        if chunk != [] {
          buffer.Write(chunk);
          downloaded := downloaded + |chunk|;
          if total != 0 {
            UpdateProgress(Fraction(downloaded, total), ProgressLabel(name));
          }
        }
        i := i + 1;
      }
      assert chunks[..i] == chunks;
    }

    /**
     * The Download button of the URL tab: the guarded entry is downloaded;
     * an empty entry or the placeholder only raises the missing-URL warning.
     */
    method StartInstallFromUrl(entry: string, net: string -> Response, extract: (seq<bv8>, string) -> Option<string>)
      modifies this
      ensures UrlGuard(entry).None? ==>
        messages == old(messages) + [MissingUrl] && history == old(history)
        && progress == old(progress) && status == old(status)
      ensures UrlGuard(entry).Some? ==>
        var report := Install(UrlGuard(entry).value, net, extract, installPath);
        history == old(history) + report.events && messages == old(messages) + [Finished(report.outcome)]
      ensures UrlGuard(entry).Some? ==>
        var last := history[|history| - 1]; progress == last.fraction * 100.0 && status == last.text
      ensures installPath == old(installPath) && folderText == old(folderText)
      ensures projects == old(projects) && listing == old(listing)
    {
      var url := UrlGuard(entry);
      if url.None? {
        messages := messages + [MissingUrl];
        return;
      }
      DownloadAndExtract(url.value, net, extract);
    }

    /** The Download button on a project card: the project's URL under `Owner`. */
    method StartInstallProject(repoName: string, net: string -> Response, extract: (seq<bv8>, string) -> Option<string>)
      modifies this
      ensures var report := Install(ProjectUrl(repoName), net, extract, installPath);
        history == old(history) + report.events && messages == old(messages) + [Finished(report.outcome)]
      ensures var last := history[|history| - 1]; progress == last.fraction * 100.0 && status == last.text
      ensures installPath == old(installPath) && folderText == old(folderText)
      ensures projects == old(projects) && listing == old(listing)
    {
      DownloadAndExtract(ProjectUrl(repoName), net, extract);
    }

    /**
     * `display_projects`: one card per project, in order. It fails at the
     * first element that is not an object, or when the body cannot be
     * iterated, leaving the cards made so far.
     */
    method DisplayProjects() returns (ok: bool)
      modifies this
      ensures ok <==> Display(projects).Some?
      ensures listing == Cards(Shown(projects))
      ensures projects == old(projects) && installPath == old(installPath) && folderText == old(folderText)
      ensures progress == old(progress) && status == old(status)
      ensures history == old(history) && messages == old(messages)
    {
      listing := Cards([]);
      var items: seq<Json>;
      match Listed(projects) {
        case None =>
          return false;
        case Some(xs) =>
          items := xs;
      }
      var i := 0;
      while i < |items|
        invariant 0 <= i <= |items|
        invariant listing.Cards? && Cardify(items[..i]) == Some(listing.cards)
        invariant projects == old(projects) && installPath == old(installPath) && folderText == old(folderText)
        invariant progress == old(progress) && status == old(status)
        invariant history == old(history) && messages == old(messages)
      {
        var card := Summarize(items[i]);
        assert items[..i + 1][..i] == items[..i];
        if card.None? {
          CardifyFailurePersists(items, i + 1);
          ShownStopsAt(projects, i);
          return false;
        }
        listing := Cards(listing.cards + [card.value]);
        i := i + 1;
      }
      assert items[..i] == items;
      CardifyIff(items);
      return true;
    }

    /** `fetch_projects`: ask the API for the list, store what parsed, and show it or the error. */
    method FetchProjects(api: string -> ApiResponse)
      modifies this
      ensures listing == FetchedListing(api(ApiBase))
      ensures projects == FetchedProjects(api(ApiBase), old(projects))
      ensures installPath == old(installPath) && folderText == old(folderText)
      ensures progress == old(progress) && status == old(status)
      ensures history == old(history) && messages == old(messages)
    {
      var reply := api(ApiBase);
      match reply {
        case ApiUnreachable(reason) =>
          listing := LoadError(NoConnection(reason));
        case ApiReply(code, body) =>
          if IsHttpError(code) {
            listing := LoadError(ListHttpError(code));
          } else if body.None? {
            listing := LoadError(BadJson);
          } else {
            projects := body.value;
            var ok := DisplayProjects();
            if !ok {
              listing := LoadError(NotProjects);
            }
          }
      }
    }

    /** `load_projects` (also run when the window opens, and by Refresh List): the loading note, then the fetch. */
    method LoadProjects(api: string -> ApiResponse)
      modifies this
      ensures listing == FetchedListing(api(ApiBase))
      ensures projects == FetchedProjects(api(ApiBase), old(projects))
      ensures installPath == old(installPath) && folderText == old(folderText)
      ensures progress == old(progress) && status == old(status)
      ensures history == old(history) && messages == old(messages)
    {
      listing := Loading;
      FetchProjects(api);
    }
  }
}
