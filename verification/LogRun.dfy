/** A whole run of log-triage: the bounded walk over the log files and the report
    (tools/log-triage/src/main.rs:381-407, 519-700). */
module LogRun {
  import Collections
  import Glob
  import opened FindWalk
  import opened Triage
  import opened Wasm
  import opened Wrappers

  /** The settings of a run, and what reading a path gives: no lines if it cannot be read as text. */
  datatype Ctx = Ctx(nameGlob: string, maxFiles: nat, maxFileBytes: nat, maxDepth: nat, maxFindings: nat,
                     windowSecs: nat, read: string -> Option<seq<LineFacts>>)

  // ---------- the files of the host and what each contributes ----------

  predicate IsLog(n: Node, ctx: Ctx) { n.Entry? && n.kind == File && Glob.Accepts(ctx.nameGlob, n.name) }

  function FileOf(n: Node, ctx: Ctx): LogFile
    requires n.Entry?
  {
    LogFile(n.name, n.path, n.length, ctx.read(n.path))
  }

  /** The files among these entries whose name matches, in their order. */
  function LogsAmong(nodes: seq<Node>, ctx: Ctx): seq<LogFile> {
    if nodes == [] then []
    else LogsAmong(nodes[..|nodes| - 1], ctx)
         + if IsLog(nodes[|nodes| - 1], ctx) then [FileOf(nodes[|nodes| - 1], ctx)] else []
  }

  /** Those of the walk from this listing, down to the depth limit. */
  function Files(l: Listing, depth: nat, ctx: Ctx): seq<LogFile> { LogsAmong(PreOrder(l, depth, ctx.maxDepth), ctx) }

  lemma {:induction false} LogsAppend(a: seq<Node>, b: seq<Node>, ctx: Ctx)
    ensures LogsAmong(a + b, ctx) == LogsAmong(a, ctx) + LogsAmong(b, ctx)
    decreases |b|
  {
    if b == [] {
      assert a + b == a;
    } else {
      assert (a + b)[..|a + b| - 1] == a + b[..|b| - 1];
      LogsAppend(a, b[..|b| - 1], ctx);
    }
  }

  lemma LogsOfOne(n: Node, below: seq<Node>, ctx: Ctx)
    ensures LogsAmong([n] + below, ctx) == (if IsLog(n, ctx) then [FileOf(n, ctx)] else []) + LogsAmong(below, ctx)
  {
    LogsAppend([n], below, ctx);
    assert [n][..0] == [];
    assert LogsAmong([n], ctx) == if IsLog(n, ctx) then [FileOf(n, ctx)] else [];
  }

  ghost function LogsBy(ctx: Ctx): Node -> bool {
    (n: Node) => n.Entry? && n.kind == File && Glob.Accepts(ctx.nameGlob, n.name)
  }

  /** They are the plain files with a matching name among the entries visited, each with what reading its
      path gives. */
  lemma {:induction false} LogsAreFiles(nodes: seq<Node>, ctx: Ctx)
    ensures var logs, nodes := LogsAmong(nodes, ctx), Collections.Filter(nodes, LogsBy(ctx));
            |logs| == |nodes| && forall i | 0 <= i < |logs| ::
              && nodes[i].Entry? && logs[i].name == nodes[i].name && logs[i].path == nodes[i].path
              && logs[i].length == nodes[i].length && logs[i].lines == ctx.read(nodes[i].path)
  {
    if nodes != [] { LogsAreFiles(nodes[..|nodes| - 1], ctx); }
  }

  predicate Readable(f: LogFile, ctx: Ctx) { f.lines.Some? && f.length <= ctx.maxFileBytes }

  function ReadableCount(files: seq<LogFile>, ctx: Ctx): nat {
    if files == [] then 0
    else ReadableCount(files[..|files| - 1], ctx) + if Readable(files[|files| - 1], ctx) then 1 else 0
  }

  /** What the run holds of one file: its findings, addresses, burst entry and lines. */
  datatype Yield = Yield(all: seq<Finding>, seen: seq<Sighting>, bursts: seq<(string, nat, seq<nat>)>, lines: nat)

  function YieldOf(f: LogFile, ctx: Ctx): Yield {
    if !Readable(f, ctx) then Yield([], [], [], 0)
    else
      var lines := f.lines.value;
      var cutoff := CutoffOf(lines, ctx.windowSecs);
      var errors := ErrorLines(lines, cutoff, |lines|);
      Yield(FileFindings(lines, cutoff, f.path, |lines|) + BurstFindings(f.path, errors),
            FileSightings(lines, cutoff, f.path, |lines|),
            BurstEntry(f.path, errors),
            LinesKept(lines, cutoff, |lines|))
  }

  function Joined(a: Yield, b: Yield): Yield {
    Yield(a.all + b.all, a.seen + b.seen, a.bursts + b.bursts, a.lines + b.lines)
  }

  function YieldOfAll(files: seq<LogFile>, ctx: Ctx): Yield {
    if files == [] then Yield([], [], [], 0)
    else Joined(YieldOfAll(files[..|files| - 1], ctx), YieldOf(files[|files| - 1], ctx))
  }

  // ---------- how far the walk gets ----------

  /** The files offered to the scan so far, and whether the walk has stopped for good. */
  datatype Sofar = Sofar(offered: seq<LogFile>, truncated: bool)

  function Offer(s: Sofar, more: seq<LogFile>, ctx: Ctx): Sofar
    decreases |more|
  {
    if more == [] then s
    else if s.truncated || ReadableCount(s.offered, ctx) >= ctx.maxFiles then Sofar(s.offered, true)
    else Offer(Sofar(s.offered + [more[0]], false), more[1..], ctx)
  }

  lemma {:induction false} OfferAppend(s: Sofar, a: seq<LogFile>, b: seq<LogFile>, ctx: Ctx)
    ensures Offer(Offer(s, a, ctx), b, ctx) == Offer(s, a + b, ctx)
    decreases |a|
  {
    if a == [] {
      assert a + b == b;
    } else {
      assert (a + b)[0] == a[0] && (a + b)[1..] == a[1..] + b;
      if !s.truncated && ReadableCount(s.offered, ctx) < ctx.maxFiles {
        OfferAppend(Sofar(s.offered + [a[0]], false), a[1..], b, ctx);
      }
    }
  }

  lemma CountStep(files: seq<LogFile>, f: LogFile, ctx: Ctx)
    ensures ReadableCount(files + [f], ctx) == ReadableCount(files, ctx) + if Readable(f, ctx) then 1 else 0
  {
    assert (files + [f])[..|files|] == files;
  }

  lemma YieldStep(files: seq<LogFile>, f: LogFile, ctx: Ctx)
    ensures YieldOfAll(files + [f], ctx) == Joined(YieldOfAll(files, ctx), YieldOf(f, ctx))
    ensures ReadableCount(files + [f], ctx) == ReadableCount(files, ctx) + if Readable(f, ctx) then 1 else 0
  {
    assert (files + [f])[..|files|] == files;
  }

  ghost predicate Below(files: seq<LogFile>, k: nat, ctx: Ctx)
    requires k <= |files|
  {
    forall j | 0 <= j < k :: ReadableCount(files[..j], ctx) < ctx.maxFiles
  }

  /** Exactly the files before the first place where `max_files` readable ones are behind. */
  ghost predicate StopsAt(files: seq<LogFile>, k: nat, ctx: Ctx) {
    k <= |files| && Below(files, k, ctx) && (k < |files| ==> ReadableCount(files[..k], ctx) >= ctx.maxFiles)
  }

  lemma {:induction false} OfferFrom(files: seq<LogFile>, k: nat, ctx: Ctx) returns (end: nat)
    requires k <= |files| && Below(files, k, ctx)
    ensures StopsAt(files, end, ctx)
    ensures Offer(Sofar(files[..k], false), files[k..], ctx) == Sofar(files[..end], end < |files|)
    decreases |files| - k
  {
    if k < |files| && ReadableCount(files[..k], ctx) < ctx.maxFiles {
      assert files[..k] + [files[k]] == files[..k + 1] && files[k..][1..] == files[k + 1..];
      end := OfferFrom(files, k + 1, ctx);
    } else {
      end := k;
    }
  }

  lemma {:induction false} CountGrows(files: seq<LogFile>, i: nat, j: nat, ctx: Ctx)
    requires i <= j <= |files|
    ensures ReadableCount(files[..i], ctx) <= ReadableCount(files[..j], ctx)
    decreases j
  {
    if i < j {
      CountGrows(files, i, j - 1, ctx);
      assert files[..j] == files[..j - 1] + [files[j - 1]];
      CountStep(files[..j - 1], files[j - 1], ctx);
    }
  }

  lemma StopCount(files: seq<LogFile>, k: nat, ctx: Ctx)
    requires StopsAt(files, k, ctx)
    ensures ReadableCount(files[..k], ctx) <= ctx.maxFiles
    ensures var all := ReadableCount(files, ctx);
            ReadableCount(files[..k], ctx) == if all < ctx.maxFiles then all else ctx.maxFiles
  {
    assert files[..|files|] == files;
    CountGrows(files, k, |files|, ctx);
    if k > 0 {
      CountStep(files[..k - 1], files[k - 1], ctx);
      assert files[..k - 1] + [files[k - 1]] == files[..k];
    } else {
      assert files[..k] == [];
    }
  }

  lemma StopFlag(files: seq<LogFile>, k: nat, ctx: Ctx)
    requires StopsAt(files, k, ctx)
    ensures k < |files| <==> files != [] && ReadableCount(files[..|files| - 1], ctx) >= ctx.maxFiles
  {
    if k < |files| { CountGrows(files, k, |files| - 1, ctx); }
  }

  /** The walk offers the files before the first place where `max_files` readable ones are behind,
      scans the smaller of `max_files` and all readable ones, and is flagged exactly when the files
      before the last one already hold `max_files` readable ones. */
  lemma WalkStopsExactly(files: seq<LogFile>, ctx: Ctx) returns (k: nat)
    ensures StopsAt(files, k, ctx) && Offer(Sofar([], false), files, ctx) == Sofar(files[..k], k < |files|)
    ensures var all := ReadableCount(files, ctx);
            ReadableCount(files[..k], ctx) == if all < ctx.maxFiles then all else ctx.maxFiles
    ensures k < |files| <==> files != [] && ReadableCount(files[..|files| - 1], ctx) >= ctx.maxFiles
  {
    assert files[..0] == [] && files[0..] == files;
    k := OfferFrom(files, 0, ctx);
    StopCount(files, k, ctx);
    StopFlag(files, k, ctx);
  }

  /** A readable file is left out exactly when there are more than `max_files`, and then the run is
      flagged; a run that left out none is flagged all the same exactly when the last file is
      unreadable and `max_files` readable ones come before it. */
  lemma FlaggedWithoutLoss(files: seq<LogFile>, ctx: Ctx)
    ensures var s := Offer(Sofar([], false), files, ctx);
            && (ReadableCount(s.offered, ctx) < ReadableCount(files, ctx) <==> ReadableCount(files, ctx) > ctx.maxFiles)
            && (ReadableCount(files, ctx) > ctx.maxFiles ==> s.truncated)
            && (s.truncated && ReadableCount(s.offered, ctx) == ReadableCount(files, ctx) <==>
                  files != [] && !Readable(files[|files| - 1], ctx) && ReadableCount(files, ctx) == ctx.maxFiles)
  {
    var k := WalkStopsExactly(files, ctx);
  }

  // ---------- the walk ----------

  ghost function Held(acc: Acc): Yield
    reads acc
  {
    Yield(acc.all, acc.seen, acc.errorBursts, acc.linesScanned)
  }

  ghost function Counters(acc: Acc): (nat, nat)
    reads acc
  {
    (acc.filesScanned, acc.filesSkipped)
  }

  ghost predicate Holds(acc: Acc, ctx: Ctx)
    reads acc
  {
    && acc.Valid()
    && Held(acc) == YieldOfAll(acc.offered, ctx)
    && acc.filesScanned == ReadableCount(acc.offered, ctx)
    && acc.filesSkipped + acc.filesScanned == |acc.offered|
  }

  ghost function State(acc: Acc): Sofar
    reads acc
  {
    Sofar(acc.offered, acc.filesTruncated)
  }

  method ScanText(acc: Acc, f: LogFile, ctx: Ctx)
    requires acc.Valid() && Readable(f, ctx)
    modifies acc
    ensures State(acc) == old(State(acc)) && Counters(acc) == old(Counters(acc))
    ensures acc.Valid() && Held(acc) == Joined(old(Held(acc)), YieldOf(f, ctx))
  {
    ScanFile(acc, f.path, f.lines.value, ctx.windowSecs);
  }

  /** Skips a file that is too long or cannot be read as text, scans any other. */
  method OfferFile(acc: Acc, f: LogFile, ctx: Ctx)
    requires Holds(acc, ctx)
    modifies acc
    ensures Holds(acc, ctx) && State(acc) == Sofar(old(acc.offered) + [f], old(acc.filesTruncated))
  {
    if f.lines.None? || f.length > ctx.maxFileBytes {
      Skip(acc, f, ctx);
    } else {
      YieldStep(acc.offered, f, ctx);
      CountFile(acc, f);
      ScanText(acc, f, ctx);
    }
  }

  method Skip(acc: Acc, f: LogFile, ctx: Ctx)
    requires Holds(acc, ctx) && !Readable(f, ctx)
    modifies acc`filesSkipped, acc`offered
    ensures Holds(acc, ctx) && acc.offered == old(acc.offered) + [f]
  {
    YieldStep(acc.offered, f, ctx);
    acc.filesSkipped, acc.offered := acc.filesSkipped + 1, acc.offered + [f];
  }

  method CountFile(acc: Acc, f: LogFile)
    requires acc.Valid()
    modifies acc`filesScanned, acc`offered
    ensures acc.Valid() && Held(acc) == old(Held(acc))
    ensures acc.offered == old(acc.offered) + [f] && acc.filesScanned == old(acc.filesScanned) + 1
  {
    acc.filesScanned, acc.offered := acc.filesScanned + 1, acc.offered + [f];
  }

  method Walk(l: Listing, depth: nat, ctx: Ctx, acc: Acc)
    requires Holds(acc, ctx)
    modifies acc
    ensures Holds(acc, ctx) && State(acc) == Offer(old(State(acc)), Files(l, depth, ctx), ctx)
    decreases l, 0
  {
    if acc.filesTruncated || depth > ctx.maxDepth || l.Unreadable? {
      return;
    }
    var entries := l.entries;
    ghost var goal := Offer(State(acc), LogsAmong(PreOrderAll(entries, depth, ctx.maxDepth), ctx), ctx);
    for i := 0 to |entries|
      invariant Holds(acc, ctx)
      invariant Offer(State(acc), LogsAmong(PreOrderAll(entries[i..], depth, ctx.maxDepth), ctx), ctx) == goal
    {
      if acc.filesTruncated { return; }
      OneThenRest(State(acc), entries[i..], depth, ctx);
      assert entries[i..][0] == entries[i] && entries[i..][1..] == entries[i + 1..];
      WalkEntry(entries[i], depth, ctx, acc);
    }
  }

  lemma OneThenRest(s: Sofar, entries: seq<Node>, depth: nat, ctx: Ctx)
    requires entries != []
    ensures Offer(Offer(s, LogsAmong(PreOrderOne(entries[0], depth, ctx.maxDepth), ctx), ctx),
                  LogsAmong(PreOrderAll(entries[1..], depth, ctx.maxDepth), ctx), ctx)
            == Offer(s, LogsAmong(PreOrderAll(entries, depth, ctx.maxDepth), ctx), ctx)
  {
    var one, rest := PreOrderOne(entries[0], depth, ctx.maxDepth), PreOrderAll(entries[1..], depth, ctx.maxDepth);
    LogsAppend(one, rest, ctx);
    OfferAppend(s, LogsAmong(one, ctx), LogsAmong(rest, ctx), ctx);
  }

  method WalkEntry(n: Node, depth: nat, ctx: Ctx, acc: Acc)
    requires Holds(acc, ctx) && !acc.filesTruncated
    modifies acc
    ensures Holds(acc, ctx)
    ensures State(acc) == Offer(old(State(acc)), LogsAmong(PreOrderOne(n, depth, ctx.maxDepth), ctx), ctx)
    decreases n, 1
  {
    if n.Broken? { return; }
    if n.kind == Directory {
      LogsOfOne(n, PreOrder(n.listing, depth + 1, ctx.maxDepth), ctx);
      assert LogsAmong(PreOrderOne(n, depth, ctx.maxDepth), ctx) == Files(n.listing, depth + 1, ctx);
      Walk(n.listing, depth + 1, ctx, acc);
    } else {
      LogsOfOne(n, [], ctx);
      assert PreOrderOne(n, depth, ctx.maxDepth) == [n] + [];
      if n.kind == File {
        var matches := Glob.GlobMatch(ctx.nameGlob, n.name);
        if matches { WalkFile(FileOf(n, ctx), ctx, acc); }
      }
    }
  }

  lemma OfferOne(s: Sofar, f: LogFile, ctx: Ctx)
    requires !s.truncated
    ensures Offer(s, [f], ctx)
            == if ReadableCount(s.offered, ctx) >= ctx.maxFiles then Sofar(s.offered, true)
              else Sofar(s.offered + [f], false)
  {
    assert [f][1..] == [];
  }

  /** A matching file: scanned, or the end of the walk. */
  method WalkFile(f: LogFile, ctx: Ctx, acc: Acc)
    requires Holds(acc, ctx) && !acc.filesTruncated
    modifies acc
    ensures Holds(acc, ctx) && State(acc) == Offer(old(State(acc)), [f], ctx)
  {
    OfferOne(State(acc), f, ctx);
    if acc.filesScanned >= ctx.maxFiles {
      Stop(acc, ctx);
    } else {
      OfferFile(acc, f, ctx);
    }
  }

  method Stop(acc: Acc, ctx: Ctx)
    requires Holds(acc, ctx)
    modifies acc`filesTruncated
    ensures Holds(acc, ctx) && State(acc) == Sofar(old(acc.offered), true)
  {
    acc.filesTruncated := true;
  }

  // ---------- the report ----------

  datatype RunArgs = RunArgs(nameGlob: string, maxFiles: nat, maxFileBytes: nat, maxDepth: nat, maxFindings: nat,
                             windowMinutes: nat)

  datatype Refusal = EmptyGlob | NoFiles | NoFindings | NoRoot

  datatype Report = Report(filesScanned: nat, filesSkipped: nat, linesScanned: nat, truncated: bool,
                           bySeverity: seq<nat>, byDetector: map<string, nat>, findings: seq<Finding>,
                           errorBursts: seq<(string, nat, seq<nat>)>, publicIps: seq<(string, nat)>)

  datatype Outcome = Refused(reason: Refusal) | Done(report: Report)

  function CtxOf(a: RunArgs, read: string -> Option<seq<LineFacts>>): Ctx {
    Ctx(a.nameGlob, a.maxFiles % USIZE, a.maxFileBytes % USIZE, a.maxDepth % USIZE, a.maxFindings % USIZE,
        a.windowMinutes % USIZE * 60, read)
  }

  /** Every number is cut to 32 bits, and the window's minutes are turned into seconds. */
  ghost predicate IsCtx(c: Ctx, a: RunArgs) {
    && c.nameGlob == a.nameGlob && c.maxFiles == a.maxFiles % 0x1_0000_0000
    && c.maxFileBytes == a.maxFileBytes % 0x1_0000_0000 && c.maxDepth == a.maxDepth % 0x1_0000_0000
    && c.maxFindings == a.maxFindings % 0x1_0000_0000 && c.windowSecs == 60 * (a.windowMinutes % 0x1_0000_0000)
  }

  /** What a report tells of all findings, and of the addresses and their ranking. */
  ghost predicate TellsFindings(r: Report, all: seq<Finding>, max: nat, stopped: bool) {
    && r.findings == Cap(Of(all, High) + Of(all, Medium) + Of(all, Info), max)
    && (r.truncated <==> stopped || |all| > max)
    && CountsSeverities(r.bySeverity, all) && CountsDetectors(r.byDetector, all)
  }

  ghost predicate TellsAddresses(r: Report, seen: seq<Sighting>, list: seq<string>) {
    && |r.publicIps| == (if |list| <= 20 then |list| else 20)
    && forall i | 0 <= i < |r.publicIps| :: r.publicIps[i] == (list[i], SightingCount(seen, list[i]))
  }

  /** The report of the files offered, when `list` ranks the tracked addresses. */
  ghost predicate Reports(r: Report, s: Sofar, list: seq<string>, ctx: Ctx) {
    var y := YieldOfAll(s.offered, ctx);
    var ips := IpsOf(y.seen);
    && Ranked(ips, list) && ByCount(ips, list)
    && TellsFindings(r, y.all + IpFindings(ips, list), ctx.maxFindings, s.truncated)
    && TellsAddresses(r, y.seen, list)
    && r.filesScanned == ReadableCount(s.offered, ctx) && r.filesScanned + r.filesSkipped == |s.offered|
    && r.linesScanned == y.lines && r.errorBursts == y.bursts
  }

  /** The report is that of all the matching files the walk gets to, or the arguments are refused. */
  method Run(root: Option<Listing>, a: RunArgs, read: string -> Option<seq<LineFacts>>)
    returns (outcome: Outcome, ghost list: seq<string>, ghost ctx: Ctx)
    ensures IsCtx(ctx, a) && ctx.read == read
    ensures outcome.Refused? <==> a.nameGlob == "" || ctx.maxFiles == 0 || ctx.maxFindings == 0 || root.None?
    ensures outcome == Refused(EmptyGlob) <==> a.nameGlob == ""
    ensures outcome == Refused(NoFiles) <==> a.nameGlob != "" && ctx.maxFiles == 0
    ensures outcome == Refused(NoFindings) <==> a.nameGlob != "" && ctx.maxFiles > 0 && ctx.maxFindings == 0
    ensures outcome == Refused(NoRoot)
            <==> a.nameGlob != "" && ctx.maxFiles > 0 && ctx.maxFindings > 0 && root.None?
    ensures outcome.Done?
            ==> Reports(outcome.report, Offer(Sofar([], false), Files(root.value, 0, ctx), ctx), list, ctx)
  {
    list := [];
    var c := CtxOf(a, read);
    ctx := c;
    if a.nameGlob == "" { return Refused(EmptyGlob), [], c; }
    if c.maxFiles == 0 { return Refused(NoFiles), [], c; }
    if c.maxFindings == 0 { return Refused(NoFindings), [], c; }
    if root.None? { return Refused(NoRoot), [], c; }
    var acc := new Acc(c.maxFindings);
    Walk(root.value, 0, c, acc);
    var report;
    report, list := MakeReport(acc, c);
    outcome := Done(report);
  }

  method MakeReport(acc: Acc, ctx: Ctx) returns (r: Report, ghost list: seq<string>)
    requires Holds(acc, ctx) && acc.maxFindings == ctx.maxFindings
    modifies acc
    ensures Reports(r, old(State(acc)), list, ctx)
  {
    ghost var y := YieldOfAll(acc.offered, ctx);
    var top;
    top, list := ReportIps(acc);
    assert acc.all == y.all + IpFindings(acc.ips, list) && acc.ips == IpsOf(y.seen);
    r := Assembled(acc, top);
  }

  /** The report of an accumulator to which the addresses were added. */
  method Assembled(acc: Acc, top: seq<(string, nat)>) returns (r: Report)
    requires acc.Valid()
    ensures TellsFindings(r, acc.all, acc.maxFindings, acc.filesTruncated)
    ensures r.filesScanned == acc.filesScanned && r.filesSkipped == acc.filesSkipped
    ensures r.linesScanned == acc.linesScanned && r.errorBursts == acc.errorBursts && r.publicIps == top
  {
    var findings, truncated := acc.Assemble();
    TallyIsExact(acc.all, acc.maxFindings);
    r := Report(acc.filesScanned, acc.filesSkipped, acc.linesScanned, truncated, acc.bySeverity, acc.byDetector,
                findings, acc.errorBursts, top);
  }

  // ---------- what the files of a run come to ----------

  lemma JoinedTwice(a: Yield, b: Yield, c: Yield)
    ensures Joined(Joined(a, b), c) == Joined(a, Joined(b, c))
  {
  }

  /** Files add up, in their order. */
  lemma {:induction false} YieldAppend(a: seq<LogFile>, b: seq<LogFile>, ctx: Ctx)
    ensures AddUp(YieldOfAll(a, ctx), YieldOfAll(b, ctx), YieldOfAll(a + b, ctx))
    ensures ReadableCount(a + b, ctx) == ReadableCount(a, ctx) + ReadableCount(b, ctx)
    decreases |b|
  {
    if b == [] {
      assert a + b == a;
    } else {
      var init, last := b[..|b| - 1], b[|b| - 1];
      assert a + b == (a + init) + [last] && b == init + [last];
      YieldAppend(a, init, ctx);
      YieldStep(a + init, last, ctx);
      YieldStep(init, last, ctx);
      JoinedTwice(YieldOfAll(a, ctx), YieldOfAll(init, ctx), YieldOf(last, ctx));
    }
  }

  ghost predicate AddUp(x: Yield, y: Yield, z: Yield) {
    z.all == x.all + y.all && z.seen == x.seen + y.seen && z.bursts == x.bursts + y.bursts
      && z.lines == x.lines + y.lines
  }

  /** A file that is too long or no text counts as skipped and comes to nothing. */
  lemma SkippedComesToNothing(files: seq<LogFile>, ctx: Ctx)
    requires |files| == 1 && (files[0].lines.None? || files[0].length > ctx.maxFileBytes)
    ensures YieldOfAll(files, ctx) == Yield([], [], [], 0) && ReadableCount(files, ctx) == 0
  {
    YieldOfOne(files, ctx);
  }

  lemma YieldOfOne(files: seq<LogFile>, ctx: Ctx)
    requires |files| == 1
    ensures YieldOfAll(files, ctx) == YieldOf(files[0], ctx)
    ensures ReadableCount(files, ctx) == if Readable(files[0], ctx) then 1 else 0
  {
    var none := files[..0];
    assert YieldOfAll(none, ctx) == Yield([], [], [], 0) && ReadableCount(none, ctx) == 0;
  }

  /** Any other counts as scanned and comes to what fired on its lines in the window, the addresses named
      there, the burst if it has one, and the number of those lines. */
  lemma FileComesTo(files: seq<LogFile>, ctx: Ctx) returns (fired: seq<(nat, nat)>, named: seq<(nat, nat)>)
    requires |files| == 1 && files[0].lines.Some? && files[0].length <= ctx.maxFileBytes
    ensures ReadableCount(files, ctx) == 1
    ensures var f := files[0];
            var cutoff := CutoffOf(f.lines.value, ctx.windowSecs);
            ComesTo(YieldOfAll(files, ctx), f.lines.value, cutoff, ErrorLines(f.lines.value, cutoff, |f.lines.value|),
                    f.path, fired, named)
  {
    YieldOfOne(files, ctx);
    var f, lines := files[0], files[0].lines.value;
    var cutoff := CutoffOf(lines, ctx.windowSecs);
    fired := FindingsByLine(lines, cutoff, f.path, |lines|);
    named := SightingsByLine(lines, cutoff, f.path, |lines|);
    LinesInWindow(lines, cutoff, |lines|);
    var fs := FileFindings(lines, cutoff, f.path, |lines|);
    var all := YieldOf(f, ctx).all;
    assert all[..|fs|] == fs && all[|fs|..] == BurstFindings(f.path, ErrorLines(lines, cutoff, |lines|));
  }

  ghost predicate ComesTo(y: Yield, lines: seq<LineFacts>, cutoff: Option<int>, errors: seq<nat>, path: string,
                          fired: seq<(nat, nat)>, named: seq<(nat, nat)>) {
    && Enumerates(fired, |lines|, Firing(lines, cutoff)) && Enumerates(named, |lines|, Naming(lines, cutoff))
    && |fired| <= |y.all| && AreFirings(y.all[..|fired|], fired, lines, path)
    && y.all[|fired|..] == BurstFindings(path, errors) && y.bursts == BurstEntry(path, errors)
    && AreNamings(y.seen, named, lines, path)
    && y.lines == |InsideOf(lines, cutoff, |lines|)|
  }
}
