/**
 * What `download_and_extract` does with one repository URL, as a
 * specification: the progress events it shows, in order, and how it ends.
 * The network and the zip extraction are parameters: `net` answers the GET
 * of the archive URL, `extract` unpacks an archive into a folder and
 * reports an error, if any. The byte buffer the chunks are collected in is
 * the class `ByteBuffer`.
 */
module Download {
  import opened Wrappers
  import opened RepoName
  import opened Urls

  /** One piece of the streamed response body. */
  type Chunk = seq<bv8>

  /** One call of `update_progress`: the bar's fraction and the status text. */
  datatype Event = Event(fraction: real, text: string)

  const Starting: Event := Event(0.05, "Downloading repository...")
  const Done: Event := Event(1.0, "Done!")
  const ErrorShown: Event := Event(0.0, "Error")

  /** The share of the bar the download itself may fill. */
  const Cap: real := 0.8

  /** The `content-length` header: missing, a number `int()` accepts, or text it refuses. */
  datatype LengthHeader = Absent | Declared(value: int) | Unparsable

  /**
   * The answer to the GET of the archive URL: no connection at all, or a
   * status, a length header and the non-empty and empty chunks the stream
   * delivers, possibly followed by a failure of the stream.
   */
  datatype Response =
    | Unreachable(reason: string)
    | Reply(status: int, length: LengthHeader, chunks: seq<Chunk>, broken: Option<string>)

  /** Why a download failed; every one of them ends with the "Error" event. */
  datatype Fault =
    | ConnectionFailed(reason: string)
    | HttpError(status: int)
    | BadLength
    | StreamBroken(reason: string)
    | ExtractFailed(reason: string)

  /** The message box at the end: success with the repository name, or the failure. */
  datatype Outcome = Installed(name: string) | Failed(fault: Fault)

  /** Everything one download shows: the progress events and the final message. */
  datatype Report = Report(events: seq<Event>, outcome: Outcome)

  /** `raise_for_status` raises for the client and server error classes only. */
  predicate IsHttpError(status: int)
    ensures IsHttpError(status) <==> status / 100 == 4 || status / 100 == 5
  {
    400 <= status < 600
  }

  /** `int(r.headers.get("content-length", 0))`; `None` when `int()` raises. */
  function DeclaredTotal(h: LengthHeader): (total: Option<int>)
    ensures total.None? <==> h.Unparsable?
    ensures h.Absent? ==> total == Some(0)
  {
    match h
    case Absent => Some(0)
    case Declared(n) => Some(n)
    case Unparsable => None
  }

  function Min(a: real, b: real): real {
    if a <= b then a else b
  }

  /** `min(0.8, downloaded / total * 0.8)`, in exact arithmetic. */
  function Fraction(downloaded: nat, total: int): (f: real)
    requires total != 0
    ensures f <= Cap
    ensures 0 < total ==> 0.0 <= f
  {
    Min(Cap, downloaded as real / total as real * Cap)
  }

  /** The status text while the chunks arrive. */
  function ProgressLabel(name: string): string {
    "Downloading " + name + "..."
  }

  /** The bytes of all chunks, in the order they arrived. */
  function Flatten(chunks: seq<Chunk>): (bytes: seq<bv8>)
    ensures bytes == [] <==> forall i | 0 <= i < |chunks| :: chunks[i] == []
  {
    if chunks == [] then [] else Flatten(chunks[..|chunks| - 1]) + chunks[|chunks| - 1]
  }

  /** How many chunks are non-empty. */
  function NonEmptyCount(chunks: seq<Chunk>): nat {
    if chunks == [] then 0
    else NonEmptyCount(chunks[..|chunks| - 1]) + (if chunks[|chunks| - 1] != [] then 1 else 0)
  }

  /**
   * The events the chunk loop shows: one per non-empty chunk, with the
   * bytes received so far, and none at all when the total is 0.
   */
  function ChunkEvents(chunks: seq<Chunk>, name: string, total: int): (events: seq<Event>)
    ensures |events| <= |chunks|
    ensures forall e | e in events :: e.text == ProgressLabel(name)
  {
    if chunks == [] then []
    else
      var last := chunks[|chunks| - 1];
      ChunkEvents(chunks[..|chunks| - 1], name, total)
      + (if last != [] && total != 0 then [Event(Fraction(|Flatten(chunks)|, total), ProgressLabel(name))] else [])
  }

  /**
   * `download_and_extract(url)` into the folder `dest`: "Downloading
   * repository..." first, the chunk events, and then "Done!" when the
   * archive was fetched and unpacked, or "Error" after any failure.
   */
  function Install(url: string, net: string -> Response, extract: (seq<bv8>, string) -> Option<string>, dest: string): (r: Report)
    ensures |r.events| >= 2 && r.events[0] == Starting
    ensures r.outcome.Installed? ==> r.events[|r.events| - 1] == Done
    ensures r.outcome.Failed? ==> r.events[|r.events| - 1] == ErrorShown
    ensures r.outcome.Installed? ==> r.outcome.name == GetRepoName(url)
  {
    var rest := Settle(GetRepoName(url), net(ArchiveUrl(url)), extract, dest);
    Report([Starting] + rest.events, rest.outcome)
  }

  /**
   * Everything after the first event, once the name is known and the GET
   * of the archive URL has answered `reply`.
   */
  function Settle(name: string, reply: Response, extract: (seq<bv8>, string) -> Option<string>, dest: string): (r: Report)
    ensures |r.events| >= 1
    ensures r.outcome.Installed? ==> r.events[|r.events| - 1] == Done && r.outcome.name == name
    ensures r.outcome.Failed? ==> r.events[|r.events| - 1] == ErrorShown
  {
    match reply
    case Unreachable(reason) => Report([ErrorShown], Failed(ConnectionFailed(reason)))
    case Reply(status, length, chunks, broken) =>
      if IsHttpError(status) then
        Report([ErrorShown], Failed(HttpError(status)))
      else
        match DeclaredTotal(length)
        case None => Report([ErrorShown], Failed(BadLength))
        case Some(total) =>
          var progress := ChunkEvents(chunks, name, total);
          if broken.Some? then
            Report(progress + [ErrorShown], Failed(StreamBroken(broken.value)))
          else
            match extract(Flatten(chunks), dest)
            case Some(err) => Report(progress + [ErrorShown], Failed(ExtractFailed(err)))
            case None => Report(progress + [Done], Installed(name))
  }

  /** Collecting chunk by chunk is concatenation: the buffer of two runs is the two buffers joined. */
  lemma {:induction false} FlattenAppend(a: seq<Chunk>, b: seq<Chunk>)
    ensures Flatten(a + b) == Flatten(a) + Flatten(b)
    decreases |b|
  {
    if b == [] {
      assert a + b == a;
    } else {
      var c := b[..|b| - 1];
      assert (a + b)[..|a + b| - 1] == a + c;
      FlattenAppend(a, c);
    }
  }

  /** Empty chunks add nothing to the buffer. */
  lemma FlattenSkipsEmpty(a: seq<Chunk>, b: seq<Chunk>)
    ensures Flatten(a + [[]] + b) == Flatten(a + b)
  {
    FlattenAppend(a + [[]], b);
    FlattenAppend(a, b);
    assert (a + [[]])[..|a|] == a;
  }

  /** The buffer only grows while chunks arrive. */
  lemma {:induction false} FlattenPrefix(chunks: seq<Chunk>, i: nat)
    requires i <= |chunks|
    ensures |Flatten(chunks[..i])| <= |Flatten(chunks)|
    ensures Flatten(chunks)[..|Flatten(chunks[..i])|] == Flatten(chunks[..i])
  {
    assert chunks == chunks[..i] + chunks[i..];
    FlattenAppend(chunks[..i], chunks[i..]);
  }

  /** Without a declared length no progress is shown between the first and the last event. */
  lemma {:induction false} NoProgressWithoutLength(chunks: seq<Chunk>, name: string)
    ensures ChunkEvents(chunks, name, 0) == []
  {
    if chunks != [] {
      NoProgressWithoutLength(chunks[..|chunks| - 1], name);
    }
  }

  /** With a non-zero length, every non-empty chunk shows exactly one event, labelled with the name. */
  lemma {:induction false} OneEventPerChunk(chunks: seq<Chunk>, name: string, total: int)
    requires total != 0
    ensures |ChunkEvents(chunks, name, total)| == NonEmptyCount(chunks)
  {
    if chunks != [] {
      OneEventPerChunk(chunks[..|chunks| - 1], name, total);
    }
  }

  /** Progress as a function of the bytes received is non-decreasing for a positive total. */
  lemma FractionMonotone(d: nat, d': nat, total: int)
    requires 0 < total && d <= d'
    ensures Fraction(d, total) <= Fraction(d', total)
  {
    var t := total as real;
    assert d as real / t <= d' as real / t by {
      assert d' as real / t - d as real / t == (d' - d) as real / t;
    }
  }

  /** For a positive total, a fraction is above 0 once a byte has arrived, and never above 0.8. */
  lemma FractionBounds(d: nat, total: int)
    requires 0 < total && 0 < d
    ensures 0.0 < Fraction(d, total) <= Cap
    ensures Fraction(d, total) == Cap <==> d >= total
  {
    var t := total as real;
    assert d as real / t > 0.0;
    if d >= total {
      assert d as real / t >= 1.0;
    } else {
      assert d as real / t < 1.0;
    }
  }

  /** A negative length header is used as it is: every progress value is then negative. */
  lemma FractionNegative(d: nat, total: int)
    requires total < 0 && 0 < d
    ensures Fraction(d, total) < 0.0
  {
    assert d as real / total as real < 0.0;
  }

  /**
   * With a positive total every chunk event lies in (0, 0.8], and none
   * exceeds the value for everything received so far.
   */
  lemma {:induction false} ChunkEventsBounded(chunks: seq<Chunk>, name: string, total: int)
    requires 0 < total
    ensures forall e | e in ChunkEvents(chunks, name, total) :: 0.0 < e.fraction <= Cap
    ensures forall e | e in ChunkEvents(chunks, name, total) :: e.fraction <= Fraction(|Flatten(chunks)|, total)
  {
    if chunks != [] {
      var prefix := chunks[..|chunks| - 1];
      ChunkEventsBounded(prefix, name, total);
      assert Flatten(chunks) == Flatten(prefix) + chunks[|chunks| - 1];
      FractionMonotone(|Flatten(prefix)|, |Flatten(chunks)|, total);
      if chunks[|chunks| - 1] != [] {
        FractionBounds(|Flatten(chunks)|, total);
      }
    }
  }

  /** The fractions of `es` never go back. */
  ghost predicate Sorted(es: seq<Event>) {
    forall i, j | 0 <= i <= j < |es| :: es[i].fraction <= es[j].fraction
  }

  /** Appending an event no lower than every earlier one keeps the order. */
  lemma SortedAppend(es: seq<Event>, e: Event)
    requires Sorted(es)
    requires forall x | x in es :: x.fraction <= e.fraction
    ensures Sorted(es + [e])
  {
    var all := es + [e];
    forall i, j | 0 <= i <= j < |all| ensures all[i].fraction <= all[j].fraction {
      if j == |es| {
        if i < |es| {
          assert all[i] == es[i] && es[i] in es;
        }
      } else {
        assert all[i] == es[i] && all[j] == es[j];
      }
    }
  }

  /** With a positive total the chunk events never go back. */
  lemma {:induction false} ChunkEventsSorted(chunks: seq<Chunk>, name: string, total: int)
    requires 0 < total
    ensures Sorted(ChunkEvents(chunks, name, total))
  {
    if chunks != [] {
      var prefix := chunks[..|chunks| - 1];
      ChunkEventsSorted(prefix, name, total);
      if chunks[|chunks| - 1] != [] {
        ChunkEventsBounded(prefix, name, total);
        assert Flatten(chunks) == Flatten(prefix) + chunks[|chunks| - 1];
        FractionMonotone(|Flatten(prefix)|, |Flatten(chunks)|, total);
        SortedAppend(ChunkEvents(prefix, name, total), Event(Fraction(|Flatten(chunks)|, total), ProgressLabel(name)));
      }
    }
  }

  /** A negative total makes every chunk event negative. */
  lemma {:induction false} ChunkEventsNegative(chunks: seq<Chunk>, name: string, total: int)
    requires total < 0
    ensures forall e | e in ChunkEvents(chunks, name, total) :: e.fraction < 0.0
  {
    if chunks != [] {
      var prefix := chunks[..|chunks| - 1];
      ChunkEventsNegative(prefix, name, total);
      if chunks[|chunks| - 1] != [] {
        assert Flatten(chunks) == Flatten(prefix) + chunks[|chunks| - 1];
        FractionNegative(|Flatten(chunks)|, total);
      }
    }
  }

  /**
   * A download succeeds exactly when the archive arrives without an error
   * status, with a usable length header and an unbroken stream, and the
   * extraction of precisely the received bytes succeeds.
   */
  lemma InstalledIff(url: string, net: string -> Response, extract: (seq<bv8>, string) -> Option<string>, dest: string)
    ensures Install(url, net, extract, dest).outcome.Installed?
      <==> var r := net(ArchiveUrl(url));
           && r.Reply?
           && !IsHttpError(r.status)
           && r.length != Unparsable
           && r.broken.None?
           && extract(Flatten(r.chunks), dest).None?
  {
  }

  /** On success the events are the start, the chunk events, and "Done!". */
  lemma InstalledEvents(url: string, net: string -> Response, extract: (seq<bv8>, string) -> Option<string>, dest: string)
    requires Install(url, net, extract, dest).outcome.Installed?
    ensures var r := net(ArchiveUrl(url));
      Install(url, net, extract, dest).events
        == [Starting] + ChunkEvents(r.chunks, GetRepoName(url), DeclaredTotal(r.length).value) + [Done]
  {
  }

  /**
   * On failure the events are the start, the chunk events of whatever
   * arrived when the failure came after the stream was read, and "Error";
   * a failure before the stream leaves no chunk events.
   */
  lemma FailedEvents(url: string, net: string -> Response, extract: (seq<bv8>, string) -> Option<string>, dest: string)
    requires Install(url, net, extract, dest).outcome.Failed?
    ensures var r := net(ArchiveUrl(url));
      var fault := Install(url, net, extract, dest).outcome.fault;
      var events := Install(url, net, extract, dest).events;
      && (fault.StreamBroken? || fault.ExtractFailed? ==>
           events == [Starting] + ChunkEvents(r.chunks, GetRepoName(url), DeclaredTotal(r.length).value) + [ErrorShown])
      && (fault.ConnectionFailed? || fault.HttpError? || fault.BadLength? ==> events == [Starting, ErrorShown])
  {
  }

  /** An error status ends the download before any chunk is read. */
  lemma HttpErrorStopsEarly(url: string, net: string -> Response, extract: (seq<bv8>, string) -> Option<string>, dest: string)
    requires net(ArchiveUrl(url)).Reply? && IsHttpError(net(ArchiveUrl(url)).status)
    ensures Install(url, net, extract, dest) == Report([Starting, ErrorShown], Failed(HttpError(net(ArchiveUrl(url)).status)))
  {
  }

  /**
   * The whole event sequence need not be monotone: one byte of a declared
   * hundred shows 0.008 after the initial 0.05.
   */
  lemma ProgressCanDrop(url: string, net: string -> Response, extract: (seq<bv8>, string) -> Option<string>, dest: string)
    requires net(ArchiveUrl(url)) == Reply(200, Declared(100), [[0]], None)
    requires extract([0], dest) == None
    ensures var es := Install(url, net, extract, dest).events;
      |es| == 3 && es[1].fraction < es[0].fraction
  {
    var chunks: seq<Chunk> := [[0]];
    assert chunks[..0] == [];
    assert Flatten(chunks) == [0];
    assert ChunkEvents(chunks, GetRepoName(url), 100) == [Event(0.008, ProgressLabel(GetRepoName(url)))];
  }

  /**
   * `io.BytesIO` as the download uses it: a byte sequence with a current
   * position, written at the position and rewound before extraction.
   */
  class ByteBuffer {
    var data: seq<bv8>
    var pos: nat

    ghost predicate Valid()
      reads this
    {
      pos <= |data|
    }

    constructor()
      ensures Valid() && data == [] && pos == 0
    {
      data := [];
      pos := 0;
    }

    /** Overwrites from the position on, extending the data where it runs past the end. */
    method Write(b: seq<bv8>)
      requires Valid()
      modifies this
      ensures Valid()
      ensures data == old(data[..pos]) + b + (if old(pos) + |b| < old(|data|) then old(data[pos + |b|..]) else [])
      ensures pos == old(pos) + |b|
    {
      var rest := if pos + |b| < |data| then data[pos + |b|..] else [];
      data := data[..pos] + b + rest;
      pos := pos + |b|;
    }

    /** `seek(0)`. */
    method Rewind()
      requires Valid()
      modifies this
      ensures Valid() && data == old(data) && pos == 0
    {
      pos := 0;
    }
  }
}
