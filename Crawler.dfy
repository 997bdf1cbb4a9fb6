/** The `Crawler` class: its fields are the error list, the two counters and
    (standing in for the filesystem it writes to) the disk; each method is
    proved to leave the state that the matching function of CrawlSpec
    computes from the state it found. */
module Crawling {
  import opened Iiif
  import opened Naming
  import opened CrawlSpec
  import opened CrawlProps

  class Crawler {
    /** The web the crawler fetches from. */
    const web: Web
    const startUrl: Url
    /** The MIME type to harvest. */
    const mime: string
    /** The extension given to saved files. */
    const extension: string := ExtensionFromMime(mime)

    var errors: seq<CrawlError>
    var urlCount: nat
    var harvested: nat
    var disk: Disk
    /** Set when the depth bound stopped the walk (see Visit). */
    var truncated: bool

    function Settings(): Config
    {
      Config(web, mime)
    }

    function Snapshot(): State
      reads this
    {
      State(errors, urlCount, harvested, disk, truncated)
    }

    /** A crawler for `url` and `mime`, over the filesystem as it stands. */
    constructor (web: Web, disk: Disk, url: Url, mime: string)
      ensures this.web == web && startUrl == url && this.mime == mime
      ensures extension == ExtensionFromMime(mime)
      ensures Snapshot() == State([], 0, 0, disk, false)
    {
      this.web := web;
      startUrl := url;
      this.mime := mime;
      errors := [];
      urlCount := 0;
      harvested := 0;
      this.disk := disk;
      truncated := false;
    }

    /** `crawl`: walks from the start URL into `targetDir`, following at most
        `depth` levels of documents, and reports the two counters. */
    method Crawl(targetDir: string, depth: nat) returns (harvestedFiles: nat, urls: nat)
      modifies this
      ensures Snapshot() == Visit(Settings(), startUrl, targetDir, depth, old(Snapshot()))
      ensures harvestedFiles == harvested && urls == urlCount
    {
      GetUrl(startUrl, targetDir, depth);
      harvestedFiles, urls := harvested, urlCount;
    }

    /** `getUrl`. */
    method GetUrl(url: Url, targetDir: string, fuel: nat)
      modifies this
      ensures Snapshot() == Visit(Settings(), url, targetDir, fuel, old(Snapshot()))
      decreases fuel, 2
    {
      ghost var s0 := Snapshot();
      if fuel == 0 {
        truncated := true;
        return;
      }
      // Load the JSON
      var json := Retrieve(web, url);
      if json.None? || IsFalsy(json.value) {
        VisitFails(Settings(), url, targetDir, fuel, s0);
        AddError(RetrievalProblem(url));
        return;
      }
      // Parse the JSON
      if json.value !in web.decoded {
        VisitFails(Settings(), url, targetDir, fuel, s0);
        AddError(DecodeProblem(url));
        return;
      }
      var data := web.decoded[json.value];
      assert Load(web, url) == Decoded(data);
      VisitDecoded(Settings(), url, targetDir, fuel, s0);
      urlCount := urlCount + 1;
      ghost var s1 := Snapshot();
      ghost var result := Dispatch(Settings(), data, targetDir, fuel - 1, s1);
      assert Visit(Settings(), url, targetDir, fuel, s0) == result;
      // Detect collections or sequences within the data
      var members := CollectionMembers(data);
      if members != [] {
        DispatchCollection(Settings(), data, targetDir, fuel - 1, s1);
        HarvestCollection(members, targetDir, fuel - 1);
        return;
      }
      if data.sequences.Some? && data.sequences.value != [] {
        DispatchManifest(Settings(), data, targetDir, fuel - 1, s1);
        HarvestFromManifest(data.sequences.value, targetDir);
        return;
      }
      DispatchNothing(Settings(), data, targetDir, fuel - 1, s1);
      AddError(NothingFound);
    }

    /** `harvestCollection`: one directory per member, numbered from 0 in
        list order, then a visit of the member into it. */
    method HarvestCollection(members: seq<Member>, targetDir: string, fuel: nat)
      modifies this
      ensures Snapshot() == Descend(Settings(), members, targetDir, fuel, |members|, old(Snapshot()))
      decreases fuel + 1, 0
    {
      var prefix := 0;
      while prefix < |members|
        invariant 0 <= prefix <= |members|
        invariant Snapshot() == Descend(Settings(), members, targetDir, fuel, prefix, old(Snapshot()))
      {
        ghost var prev := Snapshot();
        var member := members[prefix];
        var dirName := Sanitize(MemberLabel(member));
        var newTarget := targetDir + "/" + Pad10(prefix) + "-" + dirName;
        MemberTargetSpelled(targetDir, prefix, member);
        if newTarget !in disk {
          disk := disk[newTarget := Directory];
        }
        assert Snapshot() == prev.(disk := Mkdir(prev.disk, newTarget));
        ghost var mid := Snapshot();
        ghost var s0 := old(Snapshot());
        GetUrl(MemberUrl(member), newTarget, fuel);
        DescendStep(Settings(), members, targetDir, fuel, prefix, s0);
        prefix := prefix + 1;
      }
    }

    /** `harvestFromManifest`: every canvas of every sequence, by index; a
        canvas with a match counts one more harvested file. */
    method HarvestFromManifest(seqs: seq<Sequence>, targetDir: string)
      modifies this
      ensures Snapshot() == Harvest(Settings(), seqs, targetDir, old(Snapshot()))
    {
      var seqNum := 0;
      while seqNum < |seqs|
        invariant 0 <= seqNum <= |seqs|
        invariant Snapshot() == HarvestSequences(Settings(), targetDir, seqs, seqNum, old(Snapshot()))
      {
        ghost var s0 := old(Snapshot());
        var sequence := seqs[seqNum];
        if sequence.canvases.None? || sequence.canvases.value == [] {
          // "No canvases found in sequence": a notice, not an error
          HarvestSequencesStep(Settings(), targetDir, seqs, seqNum, s0);
          seqNum := seqNum + 1;
          continue;
        }
        HarvestCanvasList(sequence.canvases.value, seqNum, targetDir);
        HarvestSequencesStep(Settings(), targetDir, seqs, seqNum, s0);
        seqNum := seqNum + 1;
      }
    }

    /** The inner loop of `harvestFromManifest`: the canvases of sequence
        `seqNum`, each saved under `getFilename(seqNum, canvNum)`. */
    method HarvestCanvasList(canvases: seq<Canvas>, seqNum: nat, targetDir: string)
      modifies this`harvested, this`disk
      ensures Snapshot() == HarvestCanvases(Settings(), targetDir, seqNum, canvases, |canvases|, old(Snapshot()))
    {
      var canvNum := 0;
      while canvNum < |canvases|
        invariant 0 <= canvNum <= |canvases|
        invariant Snapshot() == HarvestCanvases(Settings(), targetDir, seqNum, canvases, canvNum, old(Snapshot()))
      {
        ghost var s0 := old(Snapshot());
        var nextFilename := Join(targetDir, GetFilename(seqNum, canvNum));
        assert nextFilename == CanvasPath(Settings(), targetDir, seqNum, canvNum);
        var saved := SaveMatchingFile(canvases[canvNum], nextFilename);
        HarvestCanvasesStep(Settings(), targetDir, seqNum, canvases, canvNum, s0, saved, disk);
        if saved {
          harvested := harvested + 1;
        }
        canvNum := canvNum + 1;
      }
    }

    /** `saveMatchingFile`: finds the first entry of `images` (through
        `.resource`) and then of `rendering` whose format is the MIME type
        sought and which has an `@id`; saves it to `file` unless that exists;
        reports whether one was found. */
    method SaveMatchingFile(canvas: Canvas, file: string) returns (found: bool)
      modifies this`disk
      ensures (found, disk) == SaveMatching(Settings(), canvas, file, old(disk))
    {
      var images := ImageCandidates(ArrayOrEmpty(canvas.images));
      var all := Candidates(canvas);
      if canvas.images.Some? {
        var items := canvas.images.value;
        var k := 0;
        while k < |items|
          invariant 0 <= k <= |items|
          invariant forall j :: 0 <= j < k ==> !Matches(mime, all[j])
          invariant disk == old(disk)
        {
          var item := items[k].resource;
          if item.Some? && item.value.format == Some(mime) && item.value.id.Some? {
            FirstMatchIs(mime, all, k);
            Store(file, item.value.id.value);
            return true;
          }
          k := k + 1;
        }
      }
      if canvas.rendering.Some? {
        var items := canvas.rendering.value;
        var k := 0;
        while k < |items|
          invariant 0 <= k <= |items|
          invariant forall j :: 0 <= j < |images| + k ==> !Matches(mime, all[j])
          invariant disk == old(disk)
        {
          var item := items[k];
          if item.format == Some(mime) && item.id.Some? {
            FirstMatchIs(mime, all, |images| + k);
            Store(file, item.id.value);
            return true;
          }
          k := k + 1;
        }
      }
      return false;
    }

    /** The body of the match branch: write the resource unless the file
        already exists. */
    method Store(file: string, url: Url)
      modifies this`disk
      ensures disk == if file in old(disk) then old(disk) else old(disk)[file := File(Download(web, url))]
    {
      if file !in disk {
        disk := disk[file := File(Download(web, url))];
      }
    }

    /** `getFilename`: the name of the file for canvas `canvNum` of sequence
        `seqNum`. Distinct positions get distinct names (FileNameInjective). */
    function GetFilename(seqNum: nat, canvNum: nat): string
    {
      FileName(seqNum, canvNum, extension)
    }

    /** `addError`. */
    method AddError(e: CrawlError)
      modifies this`errors
      ensures errors == old(errors) + [e]
    {
      errors := errors + [e];
    }

    /** `getErrors`: the messages logged so far, oldest first. */
    function GetErrors(): (r: seq<string>)
      reads this
      ensures |r| == |errors|
      ensures forall i :: 0 <= i < |r| ==> r[i] == Message(errors[i])
      ensures forall i, j :: 0 <= i < |r| && 0 <= j < |r| ==> (r[i] == r[j] <==> errors[i] == errors[j])
    {
      var messages := seq(|errors|, i requires 0 <= i < |errors| reads this => Message(errors[i]));
      MessagesTell(errors, messages);
      messages
    }
  }

  /** The directory `harvestCollection` spells out is the member's target. */
  lemma MemberTargetSpelled(dir: string, i: nat, m: Member)
    ensures dir + "/" + Pad10(i) + "-" + Sanitize(MemberLabel(m)) == MemberTarget(dir, i, m)
  {
  }

  /** One more member of the descent: make its directory, then visit it. */
  lemma DescendStep(cfg: Config, members: seq<Member>, dir: string, fuel: nat, k: nat, st: State)
    requires k < |members|
    ensures var prev := Descend(cfg, members, dir, fuel, k, st);
            var target := MemberTarget(dir, k, members[k]);
            Descend(cfg, members, dir, fuel, k + 1, st)
            == Visit(cfg, MemberUrl(members[k]), target, fuel, prev.(disk := Mkdir(prev.disk, target)))
  {
  }

  /** One more canvas of the inner harvest loop. */
  lemma HarvestCanvasesStep(cfg: Config, dir: string, s: nat, canvases: seq<Canvas>, k: nat, st: State,
                            found: bool, disk: Disk)
    requires k < |canvases|
    requires (found, disk)
             == SaveMatching(cfg, canvases[k], CanvasPath(cfg, dir, s, k), HarvestCanvases(cfg, dir, s, canvases, k, st).disk)
    ensures var prev := HarvestCanvases(cfg, dir, s, canvases, k, st);
            HarvestCanvases(cfg, dir, s, canvases, k + 1, st)
            == prev.(harvested := if found then prev.harvested + 1 else prev.harvested, disk := disk)
  {
  }

  /** One more sequence of the outer harvest loop. */
  lemma HarvestSequencesStep(cfg: Config, dir: string, seqs: seq<Sequence>, k: nat, st: State)
    requires k < |seqs|
    ensures var canvases := CanvasesOf(seqs[k]);
            HarvestSequences(cfg, dir, seqs, k + 1, st)
            == HarvestCanvases(cfg, dir, k, canvases, |canvases|, HarvestSequences(cfg, dir, seqs, k, st))
  {
  }

  /** A matching entry with none matching before it is the first match. */
  lemma {:induction false} FirstMatchIs(mime: string, items: seq<Option<Resource>>, i: nat)
    requires i < |items| && Matches(mime, items[i])
    requires forall j :: 0 <= j < i ==> !Matches(mime, items[j])
    ensures FirstMatch(mime, items) == Some(i)
  {
    if i > 0 {
      assert !Matches(mime, items[0]);
      FirstMatchIs(mime, items[1..], i - 1);
    }
  }
}
