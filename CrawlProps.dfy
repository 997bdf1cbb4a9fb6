/** What the crawl guarantees, stated over the functions of CrawlSpec (and so,
    through the proofs in module Crawling, over the `Crawler` class). */
module CrawlProps {
  import opened Iiif
  import opened Naming
  import opened CrawlSpec

  // ---------------------------------------------------------------------
  // The branches of getUrl

  /** A URL that cannot be retrieved, or whose body does not decode, adds
      exactly one error naming it and changes nothing else: no URL is
      counted, nothing is harvested and the disk is untouched. */
  lemma VisitFails(cfg: Config, url: Url, dir: string, fuel: nat, st: State)
    requires fuel > 0 && !Load(cfg.web, url).Decoded?
    ensures Visit(cfg, url, dir, fuel, st)
            == st.(errors := st.errors + [if Load(cfg.web, url).RetrievalFailed? then RetrievalProblem(url) else DecodeProblem(url)])
  {
  }

  /** A document that is retrieved and decoded is counted once and then
      dispatched on. */
  lemma VisitDecoded(cfg: Config, url: Url, dir: string, fuel: nat, st: State)
    requires fuel > 0 && Load(cfg.web, url).Decoded?
    ensures Visit(cfg, url, dir, fuel, st)
            == Dispatch(cfg, Load(cfg.web, url).doc, dir, fuel - 1, st.(urlCount := st.urlCount + 1))
  {
  }

  /** A document with collection members is descended into, whatever
      sequences it also has: the collection takes precedence. */
  lemma DispatchCollection(cfg: Config, doc: Doc, dir: string, fuel: nat, st: State)
    requires CollectionMembers(doc) != []
    ensures Dispatch(cfg, doc, dir, fuel, st)
            == Descend(cfg, CollectionMembers(doc), dir, fuel, |CollectionMembers(doc)|, st)
  {
  }

  /** A document without members but with sequences is harvested as a manifest. */
  lemma DispatchManifest(cfg: Config, doc: Doc, dir: string, fuel: nat, st: State)
    requires CollectionMembers(doc) == [] && doc.sequences.Some? && doc.sequences.value != []
    ensures Dispatch(cfg, doc, dir, fuel, st) == Harvest(cfg, doc.sequences.value, dir, st)
  {
  }

  /** A document with neither records one error and harvests nothing. */
  lemma DispatchNothing(cfg: Config, doc: Doc, dir: string, fuel: nat, st: State)
    requires CollectionMembers(doc) == [] && (doc.sequences.None? || doc.sequences.value == [])
    ensures Dispatch(cfg, doc, dir, fuel, st) == st.(errors := st.errors + [NothingFound])
  {
  }

  /** Different errors are logged as different messages, so the log names
      every URL that failed and how. */
  lemma MessageInjective(e1: CrawlError, e2: CrawlError)
    requires Message(e1) == Message(e2)
    ensures e1 == e2
  {
    MessageMarks(e1);
    MessageMarks(e2);
    if e1.RetrievalProblem? {
      StripAround("Problem retrieving ", e1.url, e2.url, ".\n");
    } else if e1.DecodeProblem? {
      StripAround("Problem decoding JSON from ", e1.url, e2.url, ".\n");
    }
  }

  /** The first character tells a retrieval or decoding problem ('P') from
      the nothing-found message ('N'); the ninth tells retrieval ('r') from
      decoding ('d'). */
  lemma MessageMarks(e: CrawlError)
    ensures |Message(e)| > 8
    ensures Message(e)[0] == (if e.NothingFound? then 'N' else 'P')
    ensures e.RetrievalProblem? ==> Message(e)[8] == 'r'
    ensures e.DecodeProblem? ==> Message(e)[8] == 'd'
  {
    match e
    case RetrievalProblem(url) =>
      assert Message(e) == "Problem retrieving " + (url + ".\n");
    case DecodeProblem(url) =>
      assert Message(e) == "Problem decoding JSON from " + (url + ".\n");
    case NothingFound =>
  }

  /** The log read back: two logged messages are equal exactly when the
      errors behind them are. */
  lemma MessagesTell(errs: seq<CrawlError>, msgs: seq<string>)
    requires |msgs| == |errs|
    requires forall i :: 0 <= i < |msgs| ==> msgs[i] == Message(errs[i])
    ensures forall i, j :: 0 <= i < |msgs| && 0 <= j < |msgs| ==> (msgs[i] == msgs[j] <==> errs[i] == errs[j])
  {
    forall i, j | 0 <= i < |msgs| && 0 <= j < |msgs| && msgs[i] == msgs[j]
      ensures errs[i] == errs[j]
    {
      MessageInjective(errs[i], errs[j]);
    }
  }

  lemma StripAround(a: string, u: string, v: string, b: string)
    requires a + u + b == a + v + b
    ensures u == v
  {
    var s := a + u + b;
    assert |u| == |v|;
    assert u == s[|a|..|a| + |u|];
    assert v == (a + v + b)[|a|..|a| + |v|];
  }

  // ---------------------------------------------------------------------
  // checkForCollectionMembers and the directories of harvestCollection

  /** The members found are the `members` entries, then the `collections`
      entries, then the `manifests` entries, each list kept whole and in order. */
  lemma CollectionMembersOrder(doc: Doc)
    ensures var all, a, b, c := CollectionMembers(doc), ArrayOrEmpty(doc.members),
                                ArrayOrEmpty(doc.collections), ArrayOrEmpty(doc.manifests);
            && |all| == |a| + |b| + |c|
            && all[..|a|] == a
            && all[|a|..|a| + |b|] == b
            && all[|a| + |b|..] == c
  {
  }

  /** Making a member's directory creates it when absent, leaves an existing
      entry (directory or file) as it is, and a second attempt changes nothing. */
  lemma MkdirIdempotent(disk: Disk, path: string)
    ensures path in Mkdir(disk, path)
    ensures path in disk ==> Mkdir(disk, path) == disk
    ensures path !in disk ==> Mkdir(disk, path) == disk[path := Directory]
    ensures Mkdir(Mkdir(disk, path), path) == Mkdir(disk, path)
  {
  }

  // ---------------------------------------------------------------------
  // harvestFromManifest: what it counts and what it writes

  /** How many of the first `k` canvases have a matching resource. */
  function CanvasMatches(mime: string, canvases: seq<Canvas>, k: nat): (n: nat)
    requires k <= |canvases|
    ensures n <= k
  {
    if k == 0 then 0
    else CanvasMatches(mime, canvases, k - 1) + (if MatchUrl(mime, canvases[k - 1]).Some? then 1 else 0)
  }

  /** How many canvases of the first `k` sequences have a matching resource. */
  function SequenceMatches(mime: string, seqs: seq<Sequence>, k: nat): nat
    requires k <= |seqs|
  {
    if k == 0 then 0
    else
      var canvases := CanvasesOf(seqs[k - 1]);
      SequenceMatches(mime, seqs, k - 1) + CanvasMatches(mime, canvases, |canvases|)
  }

  /** The files the first `k` canvases of sequence `s` are saved to: one
      per canvas with a match, named by `getFilename`. */
  function CanvasWrites(cfg: Config, dir: string, s: nat, canvases: seq<Canvas>, k: nat): set<string>
    requires k <= |canvases|
  {
    if k == 0 then {}
    else
      CanvasWrites(cfg, dir, s, canvases, k - 1)
      + (if MatchUrl(cfg.mime, canvases[k - 1]).Some? then {CanvasPath(cfg, dir, s, k - 1)} else {})
  }

  /** The files the first `k` sequences are saved to. */
  function SequenceWrites(cfg: Config, dir: string, seqs: seq<Sequence>, k: nat): set<string>
    requires k <= |seqs|
  {
    if k == 0 then {}
    else
      var canvases := CanvasesOf(seqs[k - 1]);
      SequenceWrites(cfg, dir, seqs, k - 1) + CanvasWrites(cfg, dir, k - 1, canvases, |canvases|)
  }

  /** Every entry `d'` adds to `d` is a file. */
  predicate NewAreFiles(d: Disk, d': Disk)
  {
    forall p :: p in d' && p !in d ==> d'[p].File?
  }

  // ---------------------------------------------------------------------
  // saveMatchingFile: which entry is taken

  /** FirstMatch finds a match exactly when there is one, and no entry before
      the one it finds matches. */
  lemma {:induction false} FirstMatchFirst(mime: string, items: seq<Option<Resource>>)
    ensures FirstMatch(mime, items).None? <==> forall j :: 0 <= j < |items| ==> !Matches(mime, items[j])
    ensures FirstMatch(mime, items).Some? ==>
              forall j :: 0 <= j < FirstMatch(mime, items).value ==> !Matches(mime, items[j])
  {
    if items != [] && !Matches(mime, items[0]) {
      FirstMatchFirst(mime, items[1..]);
      assert forall j :: 1 <= j < |items| ==> items[j] == items[1..][j - 1];
    }
  }

  /** The entries looked at: every `images` entry's resource, then every
      `rendering` entry. */
  lemma CandidatesAt(canvas: Canvas, k: nat)
    requires k < |Candidates(canvas)|
    ensures var images, rendering := ArrayOrEmpty(canvas.images), ArrayOrEmpty(canvas.rendering);
            && |Candidates(canvas)| == |images| + |rendering|
            && (k < |images| ==> Candidates(canvas)[k] == images[k].resource)
            && (k >= |images| ==> Candidates(canvas)[k] == Some(rendering[k - |images|]))
  {
  }

  /** A matching `images` entry always wins over every `rendering` entry: the
      URL saved is the `@id` of the first matching image when there is one. */
  lemma ImagesFirst(mime: string, canvas: Canvas, k: nat)
    requires canvas.images.Some? && k < |canvas.images.value|
    requires Matches(mime, canvas.images.value[k].resource)
    ensures MatchUrl(mime, canvas).Some?
    ensures exists i :: 0 <= i <= k && Matches(mime, canvas.images.value[i].resource)
                        && MatchUrl(mime, canvas) == Some(canvas.images.value[i].resource.value.id.value)
  {
    var items := Candidates(canvas);
    CandidatesAt(canvas, k);
    FirstMatchFirst(mime, items);
    var i := FirstMatch(mime, items).value;
    assert i <= k;
    CandidatesAt(canvas, i);
  }

  /** A canvas with a match counts one harvested file whether or not its file
      already exists; an existing file is never overwritten. */
  lemma SaveMatchingEffect(cfg: Config, canvas: Canvas, file: string, disk: Disk)
    ensures var (found, d) := SaveMatching(cfg, canvas, file, disk);
            && (found <==> MatchUrl(cfg.mime, canvas).Some?)
            && (file in disk || !found ==> d == disk)
            && (file !in disk && found ==> d == disk[file := File(Download(cfg.web, MatchUrl(cfg.mime, canvas).value))])
  {
  }

  /** The same, as the disk invariants the harvest loops keep. */
  lemma SaveMatchingDisk(cfg: Config, canvas: Canvas, file: string, disk: Disk)
    ensures var (found, d) := SaveMatching(cfg, canvas, file, disk);
            && Keeps(disk, d) && NewAreFiles(disk, d)
            && d.Keys == disk.Keys + (if found then {file} else {})
  {
    SaveMatchingEffect(cfg, canvas, file, disk);
  }

  /** `Keeps` and `NewAreFiles` compose. */
  lemma KeepsTrans(d1: Disk, d2: Disk, d3: Disk)
    requires Keeps(d1, d2) && NewAreFiles(d1, d2)
    requires Keeps(d2, d3) && NewAreFiles(d2, d3)
    ensures Keeps(d1, d3) && NewAreFiles(d1, d3)
  {
  }

  /** The inner loop leaves the errors, the URL counter and the depth flag
      alone. */
  lemma {:induction false} HarvestCanvasesQuiet(cfg: Config, dir: string, s: nat, canvases: seq<Canvas>, k: nat, st: State)
    requires k <= |canvases|
    ensures var r := HarvestCanvases(cfg, dir, s, canvases, k, st);
            r.errors == st.errors && r.urlCount == st.urlCount && r.truncated == st.truncated
  {
    if k > 0 {
      HarvestCanvasesQuiet(cfg, dir, s, canvases, k - 1, st);
    }
  }

  /** The inner loop counts one harvested file per matching canvas. */
  lemma {:induction false} HarvestCanvasesCounts(cfg: Config, dir: string, s: nat, canvases: seq<Canvas>, k: nat, st: State)
    requires k <= |canvases|
    ensures HarvestCanvases(cfg, dir, s, canvases, k, st).harvested == st.harvested + CanvasMatches(cfg.mime, canvases, k)
  {
    if k > 0 {
      HarvestCanvasesCounts(cfg, dir, s, canvases, k - 1, st);
      var prev := HarvestCanvases(cfg, dir, s, canvases, k - 1, st);
      SaveMatchingEffect(cfg, canvases[k - 1], CanvasPath(cfg, dir, s, k - 1), prev.disk);
    }
  }

  /** The inner loop keeps every existing entry and adds only files. */
  lemma {:induction false} HarvestCanvasesKeeps(cfg: Config, dir: string, s: nat, canvases: seq<Canvas>, k: nat, st: State)
    requires k <= |canvases|
    ensures var r := HarvestCanvases(cfg, dir, s, canvases, k, st);
            Keeps(st.disk, r.disk) && NewAreFiles(st.disk, r.disk)
  {
    if k > 0 {
      HarvestCanvasesKeeps(cfg, dir, s, canvases, k - 1, st);
      var prev := HarvestCanvases(cfg, dir, s, canvases, k - 1, st);
      SaveMatchingDisk(cfg, canvases[k - 1], CanvasPath(cfg, dir, s, k - 1), prev.disk);
      KeepsTrans(st.disk, prev.disk, HarvestCanvases(cfg, dir, s, canvases, k, st).disk);
    }
  }

  /** The inner loop adds exactly the files of the matching canvases. */
  lemma {:induction false} HarvestCanvasesWrites(cfg: Config, dir: string, s: nat, canvases: seq<Canvas>, k: nat, st: State)
    requires k <= |canvases|
    ensures HarvestCanvases(cfg, dir, s, canvases, k, st).disk.Keys == st.disk.Keys + CanvasWrites(cfg, dir, s, canvases, k)
  {
    if k > 0 {
      HarvestCanvasesWrites(cfg, dir, s, canvases, k - 1, st);
      var prev := HarvestCanvases(cfg, dir, s, canvases, k - 1, st);
      SaveMatchingDisk(cfg, canvases[k - 1], CanvasPath(cfg, dir, s, k - 1), prev.disk);
    }
  }

  /** The outer loop, sequence by sequence: the counters. */
  lemma {:induction false} HarvestSequencesCounts(cfg: Config, dir: string, seqs: seq<Sequence>, k: nat, st: State)
    requires k <= |seqs|
    ensures var r := HarvestSequences(cfg, dir, seqs, k, st);
            && r.errors == st.errors && r.urlCount == st.urlCount && r.truncated == st.truncated
            && r.harvested == st.harvested + SequenceMatches(cfg.mime, seqs, k)
  {
    if k > 0 {
      HarvestSequencesCounts(cfg, dir, seqs, k - 1, st);
      var prev := HarvestSequences(cfg, dir, seqs, k - 1, st);
      var canvases := CanvasesOf(seqs[k - 1]);
      HarvestCanvasesQuiet(cfg, dir, k - 1, canvases, |canvases|, prev);
      HarvestCanvasesCounts(cfg, dir, k - 1, canvases, |canvases|, prev);
    }
  }

  /** The outer loop, sequence by sequence: existing entries stay. */
  lemma {:induction false} HarvestSequencesKeeps(cfg: Config, dir: string, seqs: seq<Sequence>, k: nat, st: State)
    requires k <= |seqs|
    ensures var r := HarvestSequences(cfg, dir, seqs, k, st);
            Keeps(st.disk, r.disk) && NewAreFiles(st.disk, r.disk)
  {
    if k > 0 {
      HarvestSequencesKeeps(cfg, dir, seqs, k - 1, st);
      var prev := HarvestSequences(cfg, dir, seqs, k - 1, st);
      var canvases := CanvasesOf(seqs[k - 1]);
      HarvestCanvasesKeeps(cfg, dir, k - 1, canvases, |canvases|, prev);
      KeepsTrans(st.disk, prev.disk, HarvestSequences(cfg, dir, seqs, k, st).disk);
    }
  }

  /** The outer loop, sequence by sequence: the files added. */
  lemma {:induction false} HarvestSequencesWrites(cfg: Config, dir: string, seqs: seq<Sequence>, k: nat, st: State)
    requires k <= |seqs|
    ensures HarvestSequences(cfg, dir, seqs, k, st).disk.Keys == st.disk.Keys + SequenceWrites(cfg, dir, seqs, k)
  {
    if k > 0 {
      HarvestSequencesWrites(cfg, dir, seqs, k - 1, st);
      var prev := HarvestSequences(cfg, dir, seqs, k - 1, st);
      var canvases := CanvasesOf(seqs[k - 1]);
      HarvestCanvasesWrites(cfg, dir, k - 1, canvases, |canvases|, prev);
    }
  }

  /** `harvestFromManifest` records no error (a sequence without canvases
      only prints a notice), counts no URL, raises `harvested` by the number
      of canvases with a matching resource, keeps every existing entry and
      writes exactly the files of those canvases. */
  lemma HarvestEffect(cfg: Config, seqs: seq<Sequence>, dir: string, st: State)
    ensures var r := Harvest(cfg, seqs, dir, st);
            && r.errors == st.errors && r.urlCount == st.urlCount && r.truncated == st.truncated
            && r.harvested == st.harvested + SequenceMatches(cfg.mime, seqs, |seqs|)
            && Keeps(st.disk, r.disk) && NewAreFiles(st.disk, r.disk)
            && r.disk.Keys == st.disk.Keys + SequenceWrites(cfg, dir, seqs, |seqs|)
  {
    HarvestSequencesCounts(cfg, dir, seqs, |seqs|, st);
    HarvestSequencesKeeps(cfg, dir, seqs, |seqs|, st);
    HarvestSequencesWrites(cfg, dir, seqs, |seqs|, st);
  }

  // ---------------------------------------------------------------------
  // Where harvested files go, and that each canvas gets its own

  /** Distinct (sequence, canvas) positions are saved to distinct paths. */
  lemma CanvasPathInjective(cfg: Config, dir: string, s1: nat, c1: nat, s2: nat, c2: nat)
    requires CanvasPath(cfg, dir, s1, c1) == CanvasPath(cfg, dir, s2, c2)
    ensures s1 == s2 && c1 == c2
  {
    var n1, n2 := FileName(s1, c1, Ext(cfg)), FileName(s2, c2, Ext(cfg));
    assert n1 == CanvasPath(cfg, dir, s1, c1)[|dir| + 1..];
    assert n2 == CanvasPath(cfg, dir, s2, c2)[|dir| + 1..];
    FileNameInjective(s1, c1, s2, c2, Ext(cfg));
  }

  /** Every file of the inner loop is `dir/getFilename(s, c)` for one of the
      first `k` canvases. */
  lemma {:induction false} CanvasWritesNamed(cfg: Config, dir: string, s: nat, canvases: seq<Canvas>, k: nat, p: string)
    requires k <= |canvases| && p in CanvasWrites(cfg, dir, s, canvases, k)
    ensures exists c :: 0 <= c < k && p == CanvasPath(cfg, dir, s, c)
  {
    if p !in CanvasWrites(cfg, dir, s, canvases, k - 1) {
      assert p == CanvasPath(cfg, dir, s, k - 1);
    } else {
      CanvasWritesNamed(cfg, dir, s, canvases, k - 1, p);
    }
  }

  /** Every file of the outer loop is `dir/getFilename(s, c)` for one of the
      first `k` sequences. */
  lemma {:induction false} SequenceWritesNamed(cfg: Config, dir: string, seqs: seq<Sequence>, k: nat, p: string)
    requires k <= |seqs| && p in SequenceWrites(cfg, dir, seqs, k)
    ensures exists s, c :: 0 <= s < k && 0 <= c < |CanvasesOf(seqs[s])| && p == CanvasPath(cfg, dir, s, c)
  {
    var canvases := CanvasesOf(seqs[k - 1]);
    if p in CanvasWrites(cfg, dir, k - 1, canvases, |canvases|) {
      CanvasWritesNamed(cfg, dir, k - 1, canvases, |canvases|, p);
    } else {
      SequenceWritesNamed(cfg, dir, seqs, k - 1, p);
    }
  }

  // ---------------------------------------------------------------------
  // The whole walk

  /** The paths a walk from `url` into `dir` creates when none exists yet:
      one directory per collection member, and the files of every manifest
      reached. Like the walk, it reads only the web, never the disk. */
  function VisitWrites(cfg: Config, url: Url, dir: string, fuel: nat): set<string>
    decreases fuel, 2, 0
  {
    if fuel == 0 then {}
    else
      var loaded := Load(cfg.web, url);
      if loaded.Decoded? then DispatchWrites(cfg, loaded.doc, dir, fuel - 1) else {}
  }

  function DispatchWrites(cfg: Config, doc: Doc, dir: string, fuel: nat): set<string>
    decreases fuel + 1, 1, 0
  {
    var members := CollectionMembers(doc);
    if members != [] then DescendWrites(cfg, members, dir, fuel, |members|)
    else if doc.sequences.Some? && doc.sequences.value != [] then
      SequenceWrites(cfg, dir, doc.sequences.value, |doc.sequences.value|)
    else {}
  }

  function DescendWrites(cfg: Config, members: seq<Member>, dir: string, fuel: nat, k: nat): set<string>
    requires k <= |members|
    decreases fuel + 1, 0, k
  {
    if k == 0 then {}
    else
      var target := MemberTarget(dir, k - 1, members[k - 1]);
      DescendWrites(cfg, members, dir, fuel, k - 1) + {target} + VisitWrites(cfg, MemberUrl(members[k - 1]), target, fuel)
  }

  /** `Keeps` is transitive. */
  lemma KeepsChain(d1: Disk, d2: Disk, d3: Disk)
    requires Keeps(d1, d2) && Keeps(d2, d3)
    ensures Keeps(d1, d3)
  {
  }

  /** The walk never removes or changes an existing path: `mkdir` and
      `file_put_contents` are both guarded by an existence test. */
  lemma {:induction false} VisitKeeps(cfg: Config, url: Url, dir: string, fuel: nat, st: State)
    ensures Keeps(st.disk, Visit(cfg, url, dir, fuel, st).disk)
    decreases fuel, 2, 0
  {
    if fuel > 0 {
      var loaded := Load(cfg.web, url);
      if loaded.Decoded? {
        DispatchKeeps(cfg, loaded.doc, dir, fuel - 1, st.(urlCount := st.urlCount + 1));
      }
    }
  }

  lemma {:induction false} DispatchKeeps(cfg: Config, doc: Doc, dir: string, fuel: nat, st: State)
    ensures Keeps(st.disk, Dispatch(cfg, doc, dir, fuel, st).disk)
    decreases fuel + 1, 1, 0
  {
    var members := CollectionMembers(doc);
    if members != [] {
      DescendKeeps(cfg, members, dir, fuel, |members|, st);
    } else if doc.sequences.Some? && doc.sequences.value != [] {
      HarvestSequencesKeeps(cfg, dir, doc.sequences.value, |doc.sequences.value|, st);
    }
  }

  lemma {:induction false} DescendKeeps(cfg: Config, members: seq<Member>, dir: string, fuel: nat, k: nat, st: State)
    requires k <= |members|
    ensures Keeps(st.disk, Descend(cfg, members, dir, fuel, k, st).disk)
    decreases fuel + 1, 0, k
  {
    if k > 0 {
      DescendKeeps(cfg, members, dir, fuel, k - 1, st);
      var prev := Descend(cfg, members, dir, fuel, k - 1, st);
      var target := MemberTarget(dir, k - 1, members[k - 1]);
      var mid := prev.(disk := Mkdir(prev.disk, target));
      VisitKeeps(cfg, MemberUrl(members[k - 1]), target, fuel, mid);
      KeepsChain(st.disk, prev.disk, mid.disk);
      KeepsChain(st.disk, mid.disk, Descend(cfg, members, dir, fuel, k, st).disk);
    }
  }

  /** The walk adds exactly the paths of `VisitWrites` that did not exist. */
  lemma {:induction false} VisitAdds(cfg: Config, url: Url, dir: string, fuel: nat, st: State)
    ensures Visit(cfg, url, dir, fuel, st).disk.Keys == st.disk.Keys + VisitWrites(cfg, url, dir, fuel)
    decreases fuel, 2, 0
  {
    if fuel > 0 {
      var loaded := Load(cfg.web, url);
      if loaded.Decoded? {
        DispatchAdds(cfg, loaded.doc, dir, fuel - 1, st.(urlCount := st.urlCount + 1));
      }
    }
  }

  lemma {:induction false} DispatchAdds(cfg: Config, doc: Doc, dir: string, fuel: nat, st: State)
    ensures Dispatch(cfg, doc, dir, fuel, st).disk.Keys == st.disk.Keys + DispatchWrites(cfg, doc, dir, fuel)
    decreases fuel + 1, 1, 0
  {
    var members := CollectionMembers(doc);
    if members != [] {
      DescendAdds(cfg, members, dir, fuel, |members|, st);
    } else if doc.sequences.Some? && doc.sequences.value != [] {
      HarvestSequencesWrites(cfg, dir, doc.sequences.value, |doc.sequences.value|, st);
    }
  }

  lemma {:induction false} DescendAdds(cfg: Config, members: seq<Member>, dir: string, fuel: nat, k: nat, st: State)
    requires k <= |members|
    ensures Descend(cfg, members, dir, fuel, k, st).disk.Keys == st.disk.Keys + DescendWrites(cfg, members, dir, fuel, k)
    decreases fuel + 1, 0, k
  {
    if k > 0 {
      DescendAdds(cfg, members, dir, fuel, k - 1, st);
      var prev := Descend(cfg, members, dir, fuel, k - 1, st);
      var target := MemberTarget(dir, k - 1, members[k - 1]);
      var mid := prev.(disk := Mkdir(prev.disk, target));
      assert mid.disk.Keys == prev.disk.Keys + {target};
      VisitAdds(cfg, MemberUrl(members[k - 1]), target, fuel, mid);
    }
  }

  /** Errors are only ever appended, and the counters and the depth flag
      never go back. */
  predicate Grows(a: State, b: State)
  {
    a.errors <= b.errors && a.urlCount <= b.urlCount && a.harvested <= b.harvested
    && (a.truncated ==> b.truncated)
  }

  lemma GrowsChain(a: State, b: State, c: State)
    requires Grows(a, b) && Grows(b, c)
    ensures Grows(a, c)
  {
    assert a.errors == c.errors[..|a.errors|] by {
      assert b.errors[..|a.errors|] == c.errors[..|a.errors|];
    }
  }

  lemma {:induction false} VisitGrows(cfg: Config, url: Url, dir: string, fuel: nat, st: State)
    ensures Grows(st, Visit(cfg, url, dir, fuel, st))
    decreases fuel, 2, 0
  {
    if fuel > 0 {
      var loaded := Load(cfg.web, url);
      if loaded.Decoded? {
        var counted := st.(urlCount := st.urlCount + 1);
        DispatchGrows(cfg, loaded.doc, dir, fuel - 1, counted);
        GrowsChain(st, counted, Visit(cfg, url, dir, fuel, st));
      }
    }
  }

  lemma {:induction false} DispatchGrows(cfg: Config, doc: Doc, dir: string, fuel: nat, st: State)
    ensures Grows(st, Dispatch(cfg, doc, dir, fuel, st))
    decreases fuel + 1, 1, 0
  {
    var members := CollectionMembers(doc);
    if members != [] {
      DescendGrows(cfg, members, dir, fuel, |members|, st);
    } else if doc.sequences.Some? && doc.sequences.value != [] {
      HarvestSequencesCounts(cfg, dir, doc.sequences.value, |doc.sequences.value|, st);
    }
  }

  lemma {:induction false} DescendGrows(cfg: Config, members: seq<Member>, dir: string, fuel: nat, k: nat, st: State)
    requires k <= |members|
    ensures Grows(st, Descend(cfg, members, dir, fuel, k, st))
    decreases fuel + 1, 0, k
  {
    if k > 0 {
      DescendGrows(cfg, members, dir, fuel, k - 1, st);
      var prev := Descend(cfg, members, dir, fuel, k - 1, st);
      var target := MemberTarget(dir, k - 1, members[k - 1]);
      var mid := prev.(disk := Mkdir(prev.disk, target));
      VisitGrows(cfg, MemberUrl(members[k - 1]), target, fuel, mid);
      GrowsChain(st, mid, Descend(cfg, members, dir, fuel, k, st));
    }
  }

  /** The disk decides nothing but which paths get created: two walks from
      states that differ only in their disk record the same errors, count
      the same URLs and harvest the same number of files. In particular a
      canvas whose file already exists still counts as harvested. */
  lemma {:induction false} VisitIgnoresDisk(cfg: Config, url: Url, dir: string, fuel: nat, st1: State, st2: State)
    requires st1.(disk := st2.disk) == st2
    ensures var r1, r2 := Visit(cfg, url, dir, fuel, st1), Visit(cfg, url, dir, fuel, st2);
            r1.(disk := r2.disk) == r2
    decreases fuel, 2, 0
  {
    if fuel > 0 {
      var loaded := Load(cfg.web, url);
      if loaded.Decoded? {
        DispatchIgnoresDisk(cfg, loaded.doc, dir, fuel - 1, st1.(urlCount := st1.urlCount + 1), st2.(urlCount := st2.urlCount + 1));
      }
    }
  }

  lemma {:induction false} DispatchIgnoresDisk(cfg: Config, doc: Doc, dir: string, fuel: nat, st1: State, st2: State)
    requires st1.(disk := st2.disk) == st2
    ensures var r1, r2 := Dispatch(cfg, doc, dir, fuel, st1), Dispatch(cfg, doc, dir, fuel, st2);
            r1.(disk := r2.disk) == r2
    decreases fuel + 1, 1, 0
  {
    var members := CollectionMembers(doc);
    if members != [] {
      DescendIgnoresDisk(cfg, members, dir, fuel, |members|, st1, st2);
    } else if doc.sequences.Some? && doc.sequences.value != [] {
      HarvestSequencesCounts(cfg, dir, doc.sequences.value, |doc.sequences.value|, st1);
      HarvestSequencesCounts(cfg, dir, doc.sequences.value, |doc.sequences.value|, st2);
    }
  }

  lemma {:induction false} DescendIgnoresDisk(cfg: Config, members: seq<Member>, dir: string, fuel: nat, k: nat, st1: State, st2: State)
    requires k <= |members|
    requires st1.(disk := st2.disk) == st2
    ensures var r1, r2 := Descend(cfg, members, dir, fuel, k, st1), Descend(cfg, members, dir, fuel, k, st2);
            r1.(disk := r2.disk) == r2
    decreases fuel + 1, 0, k
  {
    if k > 0 {
      DescendIgnoresDisk(cfg, members, dir, fuel, k - 1, st1, st2);
      var prev1, prev2 := Descend(cfg, members, dir, fuel, k - 1, st1), Descend(cfg, members, dir, fuel, k - 1, st2);
      var target := MemberTarget(dir, k - 1, members[k - 1]);
      var mid1, mid2 := prev1.(disk := Mkdir(prev1.disk, target)), prev2.(disk := Mkdir(prev2.disk, target));
      VisitIgnoresDisk(cfg, MemberUrl(members[k - 1]), target, fuel, mid1, mid2);
    }
  }

  /** A disk that already holds every path the walk would create is left
      exactly as it is. */
  lemma VisitSettled(cfg: Config, url: Url, dir: string, fuel: nat, st: State)
    requires VisitWrites(cfg, url, dir, fuel) <= st.disk.Keys
    ensures Visit(cfg, url, dir, fuel, st).disk == st.disk
  {
    var d := Visit(cfg, url, dir, fuel, st).disk;
    VisitKeeps(cfg, url, dir, fuel, st);
    VisitAdds(cfg, url, dir, fuel, st);
    assert d.Keys == st.disk.Keys;
  }

  /** Running the crawl again over the disk the first run left writes
      nothing and reports the same counts and errors as that run. */
  lemma VisitRerun(cfg: Config, url: Url, dir: string, fuel: nat, st: State)
    ensures var first := Visit(cfg, url, dir, fuel, st);
            Visit(cfg, url, dir, fuel, st.(disk := first.disk)) == first
  {
    var first := Visit(cfg, url, dir, fuel, st);
    var again := st.(disk := first.disk);
    VisitAdds(cfg, url, dir, fuel, st);
    VisitSettled(cfg, url, dir, fuel, again);
    VisitIgnoresDisk(cfg, url, dir, fuel, st, again);
  }

  /** `p` lies strictly inside directory `dir`. */
  predicate Under(dir: string, p: string)
  {
    |dir| < |p| && p[..|dir| + 1] == dir + "/"
  }

  lemma JoinUnder(dir: string, name: string)
    ensures Under(dir, Join(dir, name))
  {
    assert Join(dir, name)[..|dir| + 1] == dir + "/";
  }

  lemma UnderChain(d1: string, d2: string, p: string)
    requires Under(d1, d2) && Under(d2, p)
    ensures Under(d1, p)
  {
    assert p[..|d1| + 1] == p[..|d2| + 1][..|d1| + 1];
  }

  /** Every file a manifest harvest writes lies inside its target directory. */
  lemma SequenceWritesUnder(cfg: Config, dir: string, seqs: seq<Sequence>)
    ensures forall p :: p in SequenceWrites(cfg, dir, seqs, |seqs|) ==> Under(dir, p)
  {
    forall p | p in SequenceWrites(cfg, dir, seqs, |seqs|)
      ensures Under(dir, p)
    {
      SequenceWritesNamed(cfg, dir, seqs, |seqs|, p);
      var s, c :| 0 <= s < |seqs| && p == CanvasPath(cfg, dir, s, c);
      JoinUnder(dir, FileName(s, c, Ext(cfg)));
    }
  }

  /** Every path the walk creates lies inside the directory it started in. */
  lemma {:induction false} VisitWritesUnder(cfg: Config, url: Url, dir: string, fuel: nat)
    ensures forall p :: p in VisitWrites(cfg, url, dir, fuel) ==> Under(dir, p)
    decreases fuel, 2, 0
  {
    if fuel > 0 {
      var loaded := Load(cfg.web, url);
      if loaded.Decoded? {
        DispatchWritesUnder(cfg, loaded.doc, dir, fuel - 1);
      }
    }
  }

  lemma {:induction false} DispatchWritesUnder(cfg: Config, doc: Doc, dir: string, fuel: nat)
    ensures forall p :: p in DispatchWrites(cfg, doc, dir, fuel) ==> Under(dir, p)
    decreases fuel + 1, 1, 0
  {
    var members := CollectionMembers(doc);
    if members != [] {
      DescendWritesUnder(cfg, members, dir, fuel, |members|);
    } else if doc.sequences.Some? && doc.sequences.value != [] {
      SequenceWritesUnder(cfg, dir, doc.sequences.value);
    }
  }

  lemma {:induction false} DescendWritesUnder(cfg: Config, members: seq<Member>, dir: string, fuel: nat, k: nat)
    requires k <= |members|
    ensures forall p :: p in DescendWrites(cfg, members, dir, fuel, k) ==> Under(dir, p)
    decreases fuel + 1, 0, k
  {
    if k > 0 {
      DescendWritesUnder(cfg, members, dir, fuel, k - 1);
      var target := MemberTarget(dir, k - 1, members[k - 1]);
      JoinUnder(dir, DirName(k - 1, MemberLabel(members[k - 1])));
      VisitWritesUnder(cfg, MemberUrl(members[k - 1]), target, fuel);
      forall p | p in VisitWrites(cfg, MemberUrl(members[k - 1]), target, fuel)
        ensures Under(dir, p)
      {
        UnderChain(dir, target, p);
      }
    }
  }

  /** After `harvestCollection` every member has its directory, named by
      its position and sanitised label. */
  lemma DescendMakesDirs(cfg: Config, members: seq<Member>, dir: string, fuel: nat, st: State)
    ensures forall i :: 0 <= i < |members| ==>
              MemberTarget(dir, i, members[i]) in Descend(cfg, members, dir, fuel, |members|, st).disk
  {
    DescendAdds(cfg, members, dir, fuel, |members|, st);
    DescendTargets(cfg, members, dir, fuel, |members|);
  }

  lemma {:induction false} DescendTargets(cfg: Config, members: seq<Member>, dir: string, fuel: nat, k: nat)
    requires k <= |members|
    ensures forall i :: 0 <= i < k ==> MemberTarget(dir, i, members[i]) in DescendWrites(cfg, members, dir, fuel, k)
  {
    if k > 0 {
      DescendTargets(cfg, members, dir, fuel, k - 1);
      DescendWritesGrow(cfg, members, dir, fuel, k - 1);
      var older, later := DescendWrites(cfg, members, dir, fuel, k - 1), DescendWrites(cfg, members, dir, fuel, k);
      forall i | 0 <= i < k
        ensures MemberTarget(dir, i, members[i]) in later
      {
        if i < k - 1 {
          assert MemberTarget(dir, i, members[i]) in older;
        }
      }
    }
  }

  /** One more member adds its directory and loses nothing. */
  lemma DescendWritesGrow(cfg: Config, members: seq<Member>, dir: string, fuel: nat, k: nat)
    requires k < |members|
    ensures var later := DescendWrites(cfg, members, dir, fuel, k + 1);
            DescendWrites(cfg, members, dir, fuel, k) <= later && MemberTarget(dir, k, members[k]) in later
  {
  }

  // ---------------------------------------------------------------------
  // getUrl on a manifest, and on a document that is neither

  /** A manifest is counted once, records no error and harvests one file
      per canvas with a matching resource, into exactly those files. */
  lemma VisitManifest(cfg: Config, url: Url, dir: string, fuel: nat, st: State)
    requires fuel > 0 && Load(cfg.web, url).Decoded?
    requires var doc := Load(cfg.web, url).doc;
             CollectionMembers(doc) == [] && doc.sequences.Some? && doc.sequences.value != []
    ensures var r, seqs := Visit(cfg, url, dir, fuel, st), Load(cfg.web, url).doc.sequences.value;
            && r.urlCount == st.urlCount + 1 && r.errors == st.errors
            && r.harvested == st.harvested + SequenceMatches(cfg.mime, seqs, |seqs|)
            && r.disk.Keys == st.disk.Keys + SequenceWrites(cfg, dir, seqs, |seqs|)
  {
    var doc := Load(cfg.web, url).doc;
    var counted := st.(urlCount := st.urlCount + 1);
    VisitDecoded(cfg, url, dir, fuel, st);
    DispatchManifest(cfg, doc, dir, fuel - 1, counted);
    HarvestSequencesCounts(cfg, dir, doc.sequences.value, |doc.sequences.value|, counted);
    HarvestSequencesWrites(cfg, dir, doc.sequences.value, |doc.sequences.value|, counted);
  }

  /** A decoded document with neither members nor sequences is counted and
      records the one error "No collections or sequences found". */
  lemma VisitNothingFound(cfg: Config, url: Url, dir: string, fuel: nat, st: State)
    requires fuel > 0 && Load(cfg.web, url).Decoded?
    requires var doc := Load(cfg.web, url).doc;
             CollectionMembers(doc) == [] && (doc.sequences.None? || doc.sequences.value == [])
    ensures Visit(cfg, url, dir, fuel, st)
            == st.(urlCount := st.urlCount + 1, errors := st.errors + [NothingFound])
  {
    var doc := Load(cfg.web, url).doc;
    VisitDecoded(cfg, url, dir, fuel, st);
    DispatchNothing(cfg, doc, dir, fuel - 1, st.(urlCount := st.urlCount + 1));
  }
}
