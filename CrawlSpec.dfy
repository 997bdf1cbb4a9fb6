/** The crawl as functions of its state: what `Crawler::getUrl` and the
    methods it calls do to the error list, the two counters and the disk.
    The class in module Crawling is proved to follow these functions step for
    step; the lemmas in module CrawlProps state what they guarantee. */
module CrawlSpec {
  import opened Iiif
  import opened Naming

  /** What sits at a path on disk. */
  datatype Entry = Directory | File(content: string)

  /** The filesystem: every existing path and what it holds. */
  type Disk = map<string, Entry>

  /** The three errors the crawler records. */
  datatype CrawlError = RetrievalProblem(url: Url) | DecodeProblem(url: Url) | NothingFound

  /** The message text each error is recorded with. */
  function Message(e: CrawlError): string
  {
    match e
    case RetrievalProblem(url) => "Problem retrieving " + url + ".\n"
    case DecodeProblem(url) => "Problem decoding JSON from " + url + ".\n"
    // written in two parts so that proofs about its first character stay cheap
    case NothingFound => "No collections or sequences " + "found in manifest.\n"
  }

  /** Everything a crawl changes: the error list, the retrieved-URL and
      harvested-file counters, the disk, and whether the depth bound cut
      the walk short. */
  datatype State = State(
    errors: seq<CrawlError>,
    urlCount: nat,
    harvested: nat,
    disk: Disk,
    truncated: bool)

  /** What a crawl reads and never changes: the web and the MIME type sought. */
  datatype Config = Config(web: Web, mime: string)

  function Ext(cfg: Config): string
  {
    ExtensionFromMime(cfg.mime)
  }

  function Join(dir: string, name: string): string
  {
    dir + "/" + name
  }

  /** No entry of `d` is removed or changed in `d'`. */
  predicate Keeps(d: Disk, d': Disk)
  {
    forall p :: p in d ==> p in d' && d'[p] == d[p]
  }

  // ---------------------------------------------------------------------
  // Collections

  /** `checkForCollectionMembers`: the array-valued `members`, `collections`
      and `manifests` fields, concatenated in that order. */
  function CollectionMembers(doc: Doc): seq<Member>
  {
    ArrayOrEmpty(doc.members) + ArrayOrEmpty(doc.collections) + ArrayOrEmpty(doc.manifests)
  }

  /** The URL followed for a member; a missing `@id` reads as null, i.e. "". */
  function MemberUrl(m: Member): Url
  {
    if m.id.Some? then m.id.value else ""
  }

  /** The label sanitised for a member; a missing label reads as "". */
  function MemberLabel(m: Member): string
  {
    if m.labelText.Some? then m.labelText.value else ""
  }

  /** The directory made for member number `i` under `dir`. */
  function MemberTarget(dir: string, i: nat, m: Member): string
  {
    Join(dir, DirName(i, MemberLabel(m)))
  }

  /** `mkdir` guarded by `file_exists` / `is_dir`: an existing path is left alone. */
  function Mkdir(disk: Disk, path: string): Disk
  {
    if path in disk then disk else disk[path := Directory]
  }

  // ---------------------------------------------------------------------
  // Resource matching

  /** The entries of `images`, each unwrapped through `.resource`. */
  function ImageCandidates(images: seq<Annotation>): (r: seq<Option<Resource>>)
    ensures |r| == |images|
  {
    seq(|images|, k requires 0 <= k < |images| => images[k].resource)
  }

  /** The entries of `rendering`, taken as they are. */
  function RenderingCandidates(rendering: seq<Resource>): (r: seq<Option<Resource>>)
    ensures |r| == |rendering|
  {
    seq(|rendering|, k requires 0 <= k < |rendering| => Some(rendering[k]))
  }

  /** Every entry `saveMatchingFile` looks at, in the order it looks:
      `images` first, then `rendering`; a section that is not an array is
      skipped. */
  function Candidates(canvas: Canvas): seq<Option<Resource>>
  {
    ImageCandidates(ArrayOrEmpty(canvas.images)) + RenderingCandidates(ArrayOrEmpty(canvas.rendering))
  }

  /** An entry is taken when its `format` equals the MIME type sought and it
      has an `@id`. */
  predicate Matches(mime: string, item: Option<Resource>)
  {
    item.Some? && item.value.format == Some(mime) && item.value.id.Some?
  }

  /** The position of the first entry that is taken, if any. */
  function FirstMatch(mime: string, items: seq<Option<Resource>>): (r: Option<nat>)
    ensures r.Some? ==> r.value < |items| && Matches(mime, items[r.value])
  {
    if items == [] then None
    else if Matches(mime, items[0]) then Some(0)
    else
      match FirstMatch(mime, items[1..])
      case None => None
      case Some(i) => Some(i + 1)
  }

  /** The URL of the resource harvested for a canvas, if any matches. */
  function MatchUrl(mime: string, canvas: Canvas): Option<Url>
  {
    var items := Candidates(canvas);
    match FirstMatch(mime, items)
    case None => None
    case Some(i) => Some(items[i].value.id.value)
  }

  /** `file_get_contents` of a resource as `file_put_contents` writes it:
      a failed retrieval (false) is written as the empty string. */
  function Download(web: Web, url: Url): string
  {
    var body := Retrieve(web, url);
    if body.Some? then body.value else ""
  }

  /** `saveMatchingFile`: whether a match was found, and the disk afterwards.
      A match is reported even when the file already exists, which is then
      left as it is. */
  function SaveMatching(cfg: Config, canvas: Canvas, file: string, disk: Disk): (bool, Disk)
  {
    match MatchUrl(cfg.mime, canvas)
    case None => (false, disk)
    case Some(url) => (true, if file in disk then disk else disk[file := File(Download(cfg.web, url))])
  }

  // ---------------------------------------------------------------------
  // Manifest harvest

  /** The canvases of a sequence; absent, non-array or empty all mean none. */
  function CanvasesOf(sq: Sequence): seq<Canvas>
  {
    ArrayOrEmpty(sq.canvases)
  }

  /** The file written for canvas `c` of sequence `s`. */
  function CanvasPath(cfg: Config, dir: string, s: nat, c: nat): string
  {
    Join(dir, FileName(s, c, Ext(cfg)))
  }

  /** The inner loop of `harvestFromManifest` over the first `k` canvases of
      sequence `s`. */
  function HarvestCanvases(cfg: Config, dir: string, s: nat, canvases: seq<Canvas>, k: nat, st: State): (r: State)
    requires k <= |canvases|
  {
    if k == 0 then st
    else
      var prev := HarvestCanvases(cfg, dir, s, canvases, k - 1, st);
      var saved := SaveMatching(cfg, canvases[k - 1], CanvasPath(cfg, dir, s, k - 1), prev.disk);
      prev.(harvested := if saved.0 then prev.harvested + 1 else prev.harvested, disk := saved.1)
  }

  /** The outer loop of `harvestFromManifest` over the first `k` sequences. */
  function HarvestSequences(cfg: Config, dir: string, seqs: seq<Sequence>, k: nat, st: State): (r: State)
    requires k <= |seqs|
  {
    if k == 0 then st
    else
      var prev := HarvestSequences(cfg, dir, seqs, k - 1, st);
      var canvases := CanvasesOf(seqs[k - 1]);
      HarvestCanvases(cfg, dir, k - 1, canvases, |canvases|, prev)
  }

  /** `harvestFromManifest`. */
  function Harvest(cfg: Config, seqs: seq<Sequence>, dir: string, st: State): State
  {
    HarvestSequences(cfg, dir, seqs, |seqs|, st)
  }

  // ---------------------------------------------------------------------
  // Dispatch and descent

  /** `getUrl(url, dir)` with at most `fuel` levels of documents left to
      fetch. Without fuel the walk stops there and says so in `truncated`. */
  function Visit(cfg: Config, url: Url, dir: string, fuel: nat, st: State): State
    decreases fuel, 2, 0
  {
    if fuel == 0 then st.(truncated := true)
    else
      match Load(cfg.web, url)
      case RetrievalFailed => st.(errors := st.errors + [RetrievalProblem(url)])
      case DecodeFailed => st.(errors := st.errors + [DecodeProblem(url)])
      case Decoded(doc) => Dispatch(cfg, doc, dir, fuel - 1, st.(urlCount := st.urlCount + 1))
  }

  /** The rest of `getUrl` once a document is decoded and counted: a
      collection is descended into, else a manifest is harvested, else an
      error is recorded. */
  function Dispatch(cfg: Config, doc: Doc, dir: string, fuel: nat, st: State): State
    decreases fuel + 1, 1, 0
  {
    var members := CollectionMembers(doc);
    if members != [] then Descend(cfg, members, dir, fuel, |members|, st)
    else if doc.sequences.Some? && doc.sequences.value != [] then Harvest(cfg, doc.sequences.value, dir, st)
    else st.(errors := st.errors + [NothingFound])
  }

  /** The loop of `harvestCollection` over the first `k` members: member
      `i` gets directory `MemberTarget(dir, i, _)`, made if absent, and is
      then visited with that directory as its target. */
  function Descend(cfg: Config, members: seq<Member>, dir: string, fuel: nat, k: nat, st: State): State
    requires k <= |members|
    decreases fuel + 1, 0, k
  {
    if k == 0 then st
    else
      var prev := Descend(cfg, members, dir, fuel, k - 1, st);
      var target := MemberTarget(dir, k - 1, members[k - 1]);
      Visit(cfg, MemberUrl(members[k - 1]), target, fuel, prev.(disk := Mkdir(prev.disk, target)))
  }
}
