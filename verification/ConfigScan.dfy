/** The effective value of an sshd-style directive through nested includes
    (tools/compliance-scan/src/main.rs:111-121, 161-177, 212-339, 440-451). */
module ConfigScan {
  import opened Text
  import Glob
  import SplitArgs
  import opened Wrappers

  // ---------- the host ----------

  datatype FsErr = Denied(why: string) | NotFound | Other(why: string)

  datatype Result<+T> = Ok(value: T) | Err(error: FsErr)

  /** A node's file system, fixed during a scan: what reading a path or listing a directory answers. */
  datatype Host = Host(files: map<string, Result<string>>, dirs: map<string, Result<seq<string>>>) {
    function Read(path: string): Result<string> {
      if path in files then files[path] else Err(NotFound)
    }
    function List(dir: string): Result<seq<string>> {
      if dir in dirs then dirs[dir] else Err(NotFound)
    }
  }

  const INCLUDE_MAX_DEPTH := 8

  // ---------- one line ----------

  datatype Line = Blank | MatchLine | Include(patterns: seq<string>) | Directive(keyword: string, value: string)

  predicate EndsKeyword(c: char) { IsSpace(c) || c == '=' }

  function KeywordEnd(line: string): (n: nat)
    ensures n <= |line|
  {
    if line == "" || EndsKeyword(line[0]) then 0 else 1 + KeywordEnd(line[1..])
  }

  /** `Keyword value` and `Keyword=value`, blanks around the `=` allowed. */
  function SplitKeyword(line: string): (string, string) {
    var end := KeywordEnd(line);
    var rest := TrimStart(line[end..]);
    (line[..end], TrimStart(if rest != "" && rest[0] == '=' then rest[1..] else rest))
  }

  predicate IsKeyword(k: string) { k != "" && forall i | 0 <= i < |k| :: !EndsKeyword(k[i]) }

  lemma {:induction false} KeywordEndsAt(k: string, rest: string)
    requires forall i | 0 <= i < |k| :: !EndsKeyword(k[i])
    requires rest == "" || EndsKeyword(rest[0])
    ensures KeywordEnd(k + rest) == |k|
  {
    if k == "" {
      assert k + rest == rest;
    } else {
      assert (k + rest)[1..] == k[1..] + rest;
      KeywordEndsAt(k[1..], rest);
    }
  }

  /** `Keyword value` and `Keyword=value` split alike, with any blanks around the `=` or in its place. */
  lemma SpellingsAgree(k: string, before: string, after: string, v: string)
    requires IsKeyword(k) && Blanks(before) && Blanks(after)
    requires v == "" || !EndsKeyword(v[0])
    ensures SplitKeyword(k + (before + ("=" + (after + v)))) == (k, v)
    ensures before != "" ==> SplitKeyword(k + (before + v)) == (k, v)
  {
    var tail := "=" + (after + v);
    KeywordEndsAt(k, before + tail);
    StartIsTrimmed(before, tail);
    StartIsTrimmed(after, v);
    assert (k + (before + tail))[|k|..] == before + tail && tail[1..] == after + v;
    if before != "" {
      KeywordEndsAt(k, before + v);
      StartIsTrimmed(before, v);
      StartIsTrimmed("", v);
      assert (k + (before + v))[|k|..] == before + v && "" + v == v;
    }
  }

  function Parse(raw: string): Line {
    var line := Trim(raw);
    if line == "" || line[0] == '#' then Blank
    else
      var (word, rest) := SplitKeyword(line);
      var kw := Lower(word);
      var args := SplitArgs.Args(rest);
      if kw == "match" then MatchLine
      else if kw == "include" then Include(args)
      else Directive(kw, if args == [] then "" else args[0])
  }

  /** The lines of a file, parsed one by one. */
  function Parsed(text: string): (r: seq<Line>)
    ensures |r| == |Lines(text)| && forall i | 0 <= i < |r| :: r[i] == Parse(Lines(text)[i])
  {
    var lines := Lines(text);
    seq(|lines|, i requires 0 <= i < |lines| => Parse(lines[i]))
  }

  // ---------- include expansion ----------

  predicate IsSlash(c: char) { c == '/' || c == '\\' }

  function Separator(path: string): string {
    if '/' in path || '\\' !in path then "/" else "\\"
  }

  predicate IsAbsolute(path: string) {
    (path != "" && IsSlash(path[0])) || (|path| > 1 && path[0] as int < 128 && path[1] == ':')
  }

  function ParentDir(path: string): string {
    var i := LastIndexOf(path, IsSlash);
    if i == 0 then path[..1] else if i > 0 then path[..i] else "."
  }

  function Accepted(pattern: string, names: seq<string>): seq<string> {
    if names == [] then []
    else (if Glob.Accepts(pattern, names[0]) then [names[0]] else []) + Accepted(pattern, names[1..])
  }

  function Prefixed(prefix: string, names: seq<string>): (r: seq<string>)
    ensures |r| == |names| && forall i | 0 <= i < |r| :: r[i] == prefix + names[i]
  {
    seq(|names|, i requires 0 <= i < |names| => prefix + names[i])
  }

  function FullPattern(base: string, pattern: string): string {
    if IsAbsolute(pattern) then pattern else base + Separator(base) + pattern
  }

  /** Directory part and last component of a full pattern. */
  function DirAndLast(base: string, full: string): (string, string) {
    var i := LastIndexOf(full, IsSlash);
    if i >= 0 then (full[..if i == 0 then 1 else i], full[i + 1..]) else (base, full)
  }

  /** The files one `Include` argument names, in load order. */
  function Expand(host: Host, base: string, pattern: string): Result<seq<string>> {
    var full := FullPattern(base, pattern);
    var (dir, last) := DirAndLast(base, full);
    if '*' !in last && '?' !in last then Ok([full])
    else
      match host.List(dir)
      case Ok(names) => Ok(Prefixed(dir + Separator(dir), Sort(Accepted(last, names))))
      case Err(NotFound) => Ok([])
      case Err(e) => Err(e)
  }

  lemma {:induction false} AcceptedFilters(pattern: string, names: seq<string>, n: string)
    ensures multiset(Accepted(pattern, names))[n] == if Glob.Accepts(pattern, n) then multiset(names)[n] else 0
  {
    if names != [] {
      AcceptedFilters(pattern, names[1..], n);
      assert names == [names[0]] + names[1..];
    }
  }

  /** A glob include loads exactly the listed names its last component matches, each as often as
      listed, in ascending order. A listed name or a last component without `*` is judged by the notation. */
  lemma GlobIncludeIsSortedFilter(host: Host, base: string, pattern: string)
    ensures var full := FullPattern(base, pattern);
            var (dir, last) := DirAndLast(base, full);
            host.List(dir).Ok? && ('*' in last || '?' in last) ==>
              exists names ::
                && Expand(host, base, pattern) == Ok(Prefixed(dir + Separator(dir), names))
                && Sorted(names)
                && forall n :: multiset(names)[n] ==
                    (if Glob.Accepts(last, n) then multiset(host.List(dir).value)[n] else 0)
  {
    var (dir, last) := DirAndLast(base, FullPattern(base, pattern));
    if host.List(dir).Ok? && ('*' in last || '?' in last) {
      var listed := host.List(dir).value;
      var names := Sort(Accepted(last, listed));
      SortSorts(Accepted(last, listed));
      forall n ensures multiset(names)[n] == (if Glob.Accepts(last, n) then multiset(listed)[n] else 0) {
        AcceptedFilters(last, listed, n);
      }
    }
  }

  // ---------- the include tree, flattened ----------

  /** What the walk sees of a host: the lines of a file, and the files an include argument names. */
  datatype Sources = Sources(read: string -> Result<seq<Line>>, expand: string -> Result<seq<string>>)

  function ReadLines(host: Host, path: string): Result<seq<Line>> {
    match host.Read(path)
    case Ok(text) => Ok(Parsed(text))
    case Err(e) => Err(e)
  }

  /** Include arguments are taken relative to the directory of the main file. */
  function SourcesOf(host: Host, base: string): Sources {
    Sources(path => ReadLines(host, path), pattern => Expand(host, base, pattern))
  }

  /** One thing a complete reading meets: a setting, or a read or list error. */
  datatype Step = Setting(keyword: string, value: string, file: string) | Fault(error: FsErr)

  /** Everything the rest of a file contributes in order, up to its own `Match` line, with each
      include replaced by its files. Includes at the depth bound contribute nothing. */
  function FlattenLines(src: Sources, lines: seq<Line>, file: string, depth: nat): seq<Step>
    requires depth <= INCLUDE_MAX_DEPTH
    decreases INCLUDE_MAX_DEPTH - depth, 2, |lines|
  {
    if lines == [] then []
    else
      match lines[0]
      case Blank => FlattenLines(src, lines[1..], file, depth)
      case MatchLine => []
      case Include(patterns) =>
        (if depth >= INCLUDE_MAX_DEPTH then [] else FlattenPatterns(src, patterns, depth))
        + FlattenLines(src, lines[1..], file, depth)
      case Directive(kw, value) =>
        [Setting(kw, value, file)] + FlattenLines(src, lines[1..], file, depth)
  }

  function FlattenPatterns(src: Sources, patterns: seq<string>, depth: nat): seq<Step>
    requires depth < INCLUDE_MAX_DEPTH
    decreases INCLUDE_MAX_DEPTH - depth, 1, |patterns|
  {
    if patterns == [] then []
    else
      (match src.expand(patterns[0])
       case Err(e) => [Fault(e)]
       case Ok(files) => FlattenFiles(src, files, depth))
      + FlattenPatterns(src, patterns[1..], depth)
  }

  function FlattenFiles(src: Sources, files: seq<string>, depth: nat): seq<Step>
    requires depth < INCLUDE_MAX_DEPTH
    decreases INCLUDE_MAX_DEPTH - depth, 0, |files|
  {
    if files == [] then []
    else
      (match src.read(files[0])
       case Ok(lines) => FlattenLines(src, lines, files[0], depth + 1)
       case Err(NotFound) => []
       case Err(e) => [Fault(e)])
      + FlattenFiles(src, files[1..], depth)
  }

  datatype Hit = Hit(value: string, file: string)

  /** The first setting of `want`, unless an error comes before it. */
  function FirstHit(steps: seq<Step>, want: string): Result<Option<Hit>> {
    if steps == [] then Ok(None)
    else
      match steps[0]
      case Fault(e) => Err(e)
      case Setting(kw, value, file) =>
        if kw == want then Ok(Some(Hit(value, file))) else FirstHit(steps[1..], want)
  }

  ghost predicate Skips(s: Step, want: string) { s.Setting? && s.keyword != want }

  /** What the first hit is, by position: the first step that is not another directive decides.
      A setting of `want` there is the answer, an error there is returned, and without such a step
      the directive is not set. */
  lemma {:induction false} FirstHitByPosition(steps: seq<Step>, want: string) returns (i: nat)
    ensures i <= |steps| && forall j | 0 <= j < i :: Skips(steps[j], want)
    ensures i == |steps| <==> FirstHit(steps, want) == Ok(None)
    ensures i < |steps| ==> !Skips(steps[i], want)
    ensures forall e :: FirstHit(steps, want) == Err(e) <==> i < |steps| && steps[i] == Fault(e)
    ensures forall v, f ::
              FirstHit(steps, want) == Ok(Some(Hit(v, f))) <==> i < |steps| && steps[i] == Setting(want, v, f)
  {
    i := 0;
    if steps != [] && Skips(steps[0], want) {
      i := FirstHitByPosition(steps[1..], want);
      i := i + 1;
    }
  }

  lemma {:induction false} FirstHitAppend(a: seq<Step>, b: seq<Step>, want: string)
    ensures FirstHit(a + b, want) == if FirstHit(a, want) == Ok(None) then FirstHit(b, want) else FirstHit(a, want)
  {
    if a == [] {
      assert a + b == b;
    } else {
      assert (a + b)[1..] == a[1..] + b;
      FirstHitAppend(a[1..], b, want);
    }
  }

  // ---------- the lazy scan ----------

  /** Reads files only as far as needed, and returns as soon as it finds the directive or meets an
      error. It answers what the complete reading puts first, for every host, cyclic includes too. */
  method Scan(host: Host, text: string, file: string, base: string, want: string, depth: nat)
    returns (r: Result<Option<Hit>>)
    requires depth <= INCLUDE_MAX_DEPTH
    ensures r == FirstHit(FlattenLines(SourcesOf(host, base), Parsed(text), file, depth), want)
    decreases INCLUDE_MAX_DEPTH - depth, 2
  {
    var rawLines := Text.Lines(text);
    ghost var lines := Parsed(text);
    ghost var all := FirstHit(FlattenLines(SourcesOf(host, base), lines, file, depth), want);
    for i := 0 to |rawLines|
      invariant FirstHit(FlattenLines(SourcesOf(host, base), lines[i..], file, depth), want) == all
    {
      ghost var tail := FlattenLines(SourcesOf(host, base), lines[i + 1..], file, depth);
      assert lines[i..][1..] == lines[i + 1..];
      match Parse(rawLines[i])
      case Blank =>
      case MatchLine => return Ok(None);
      case Include(patterns) =>
        if depth < INCLUDE_MAX_DEPTH {
          var hit := ScanPatterns(host, patterns, base, want, depth);
          FirstHitAppend(FlattenPatterns(SourcesOf(host, base), patterns, depth), tail, want);
          if hit != Ok(None) { return hit; }
        } else {
          assert [] + tail == tail;
        }
      case Directive(kw, value) =>
        if kw == want { return Ok(Some(Hit(value, file))); }
        assert ([Setting(kw, value, file)] + tail)[1..] == tail;
    }
    r := Ok(None);
  }

  /** The inner loops of the scan: every pattern of one `Include` line, then every file it names. */
  method ScanPatterns(host: Host, patterns: seq<string>, base: string, want: string, depth: nat)
    returns (r: Result<Option<Hit>>)
    requires depth < INCLUDE_MAX_DEPTH
    ensures r == FirstHit(FlattenPatterns(SourcesOf(host, base), patterns, depth), want)
    decreases INCLUDE_MAX_DEPTH - depth, 1
  {
    ghost var all := FirstHit(FlattenPatterns(SourcesOf(host, base), patterns, depth), want);
    for j := 0 to |patterns|
      invariant FirstHit(FlattenPatterns(SourcesOf(host, base), patterns[j..], depth), want) == all
    {
      ghost var later := FlattenPatterns(SourcesOf(host, base), patterns[j + 1..], depth);
      assert patterns[j..][1..] == patterns[j + 1..];
      var expanded := Expand(host, base, patterns[j]);
      if expanded.Err? { return Err(expanded.error); }
      var hit := ScanFiles(host, expanded.value, base, want, depth);
      FirstHitAppend(FlattenFiles(SourcesOf(host, base), expanded.value, depth), later, want);
      if hit != Ok(None) { return hit; }
    }
    r := Ok(None);
  }

  method ScanFiles(host: Host, files: seq<string>, base: string, want: string, depth: nat)
    returns (r: Result<Option<Hit>>)
    requires depth < INCLUDE_MAX_DEPTH
    ensures r == FirstHit(FlattenFiles(SourcesOf(host, base), files, depth), want)
    decreases INCLUDE_MAX_DEPTH - depth, 0
  {
    ghost var all := FirstHit(FlattenFiles(SourcesOf(host, base), files, depth), want);
    for k := 0 to |files|
      invariant FirstHit(FlattenFiles(SourcesOf(host, base), files[k..], depth), want) == all
    {
      assert files[k..][1..] == files[k + 1..];
      ghost var rest := FlattenFiles(SourcesOf(host, base), files[k + 1..], depth);
      match host.Read(files[k])
      case Err(NotFound) => assert [] + rest == rest;
      case Err(e) => return Err(e);
      case Ok(text) =>
        var hit := Scan(host, text, files[k], base, want, depth + 1);
        FirstHitAppend(FlattenLines(SourcesOf(host, base), Parsed(text), files[k], depth + 1), rest, want);
        if hit != Ok(None) { return hit; }
    }
    r := Ok(None);
  }

  // ---------- what a complete reading meets ----------

  ghost predicate Live(lines: seq<Line>, k: nat) {
    k < |lines| && forall j | 0 <= j < k :: !lines[j].MatchLine?
  }

  /** A line before the `Match` line of `text` sets the keyword. */
  ghost predicate SetsIn(lines: seq<Line>, kw: string, value: string) {
    exists k: nat :: Live(lines, k) && lines[k] == Directive(kw, value)
  }

  ghost predicate Names(src: Sources, pattern: string, g: string) {
    src.expand(pattern).Ok? && g in src.expand(pattern).value
  }

  /** A line before the `Match` line includes the file `g`. */
  ghost predicate Includes(src: Sources, lines: seq<Line>, g: string) {
    exists k: nat, p :: Live(lines, k) && lines[k].Include? && p in lines[k].patterns && Names(src, p, g)
  }

  /** The include argument cannot be listed, or names a file that is there and cannot be read. */
  ghost predicate FailsOn(src: Sources, p: string, e: FsErr) {
    src.expand(p) == Err(e) || (e != NotFound && exists g :: Names(src, p, g) && src.read(g) == Err(e))
  }

  /** A line before the `Match` line has an include that fails with this error. */
  ghost predicate FailsIn(src: Sources, lines: seq<Line>, e: FsErr) {
    exists k: nat, p :: Live(lines, k) && lines[k].Include? && p in lines[k].patterns && FailsOn(src, p, e)
  }

  /** A file makes the setting itself, or has the include that fails. */
  ghost predicate MakesItself(src: Sources, lines: seq<Line>, file: string, s: Step) {
    match s
    case Setting(kw, value, source) => source == file && SetsIn(lines, kw, value)
    case Fault(e) => FailsIn(src, lines, e)
  }

  /** Following the include chain `chain` of readable files from a file ends in one that makes the step. */
  ghost predicate MadeBy(src: Sources, lines: seq<Line>, file: string, chain: seq<string>, s: Step)
    decreases |chain|
  {
    if chain == [] then MakesItself(src, lines, file, s)
    else
      && Includes(src, lines, chain[0])
      && src.read(chain[0]).Ok?
      && MadeBy(src, src.read(chain[0]).value, chain[0], chain[1..], s)
  }

  /** How deep a chain may be: the includes of a file at the depth bound are not followed. */
  function Deepest(s: Step): nat { if s.Setting? then INCLUDE_MAX_DEPTH else INCLUDE_MAX_DEPTH - 1 }

  ghost predicate FromFile(src: Sources, depth: nat, g: string, s: Step)
    requires depth < INCLUDE_MAX_DEPTH
  {
    match src.read(g)
    case Ok(lines) => s in FlattenLines(src, lines, g, depth + 1)
    case Err(e) => e != NotFound && s == Fault(e)
  }

  ghost predicate FromPattern(src: Sources, depth: nat, p: string, s: Step)
    requires depth < INCLUDE_MAX_DEPTH
  {
    match src.expand(p)
    case Ok(files) => exists g :: g in files && FromFile(src, depth, g, s)
    case Err(e) => s == Fault(e)
  }

  lemma {:induction false} InFlattenFiles(src: Sources, files: seq<string>, depth: nat, s: Step)
    requires depth < INCLUDE_MAX_DEPTH
    ensures s in FlattenFiles(src, files, depth) <==> exists g :: g in files && FromFile(src, depth, g, s)
  {
    if files != [] {
      InFlattenFiles(src, files[1..], depth, s);
      assert files == [files[0]] + files[1..];
      assert s in FlattenFiles(src, files, depth) <==>
             FromFile(src, depth, files[0], s) || s in FlattenFiles(src, files[1..], depth);
    }
  }

  lemma {:induction false} InFlattenPatterns(src: Sources, patterns: seq<string>, depth: nat, s: Step)
    requires depth < INCLUDE_MAX_DEPTH
    ensures s in FlattenPatterns(src, patterns, depth) <==> exists p :: p in patterns && FromPattern(src, depth, p, s)
  {
    if patterns != [] {
      InFlattenPatterns(src, patterns[1..], depth, s);
      assert patterns == [patterns[0]] + patterns[1..];
      if src.expand(patterns[0]).Ok? { InFlattenFiles(src, src.expand(patterns[0]).value, depth, s); }
      assert s in FlattenPatterns(src, patterns, depth) <==>
             FromPattern(src, depth, patterns[0], s) || s in FlattenPatterns(src, patterns[1..], depth);
    }
  }

  /** The k-th line makes the step, by itself or by an include. */
  ghost predicate MadeAt(src: Sources, lines: seq<Line>, file: string, depth: nat, k: nat, s: Step)
    requires depth <= INCLUDE_MAX_DEPTH
  {
    && Live(lines, k)
    && match lines[k] {
         case Blank => false
         case MatchLine => false
         case Directive(kw, value) => s == Setting(kw, value, file)
         case Include(patterns) => depth < INCLUDE_MAX_DEPTH
           && exists p :: p in patterns && FromPattern(src, depth, p, s)
       }
  }

  lemma {:induction false} InFlattenLines(src: Sources, lines: seq<Line>, file: string, depth: nat, s: Step)
    requires depth <= INCLUDE_MAX_DEPTH
    ensures s in FlattenLines(src, lines, file, depth) <==> exists k: nat :: MadeAt(src, lines, file, depth, k, s)
    decreases |lines|
  {
    if lines != [] {
      var rest := lines[1..];
      InFlattenLines(src, rest, file, depth, s);
      forall k: nat ensures MadeAt(src, lines, file, depth, k + 1, s) <==>
                            !lines[0].MatchLine? && MadeAt(src, rest, file, depth, k, s) {
        LiveShift(lines, k);
      }
      if lines[0].Include? && depth < INCLUDE_MAX_DEPTH {
        InFlattenPatterns(src, lines[0].patterns, depth, s);
      }
      assert s in FlattenLines(src, lines, file, depth) <==>
             MadeAt(src, lines, file, depth, 0, s)
             || (!lines[0].MatchLine? && s in FlattenLines(src, rest, file, depth));
      if k: nat :| MadeAt(src, lines, file, depth, k, s) {
        assert k > 0 ==> MadeAt(src, rest, file, depth, k - 1, s);
      }
    }
  }

  lemma LiveShift(lines: seq<Line>, k: nat)
    requires lines != []
    ensures Live(lines, k + 1) <==> !lines[0].MatchLine? && Live(lines[1..], k)
  {
    if Live(lines, k + 1) {
      forall j | 0 <= j < k ensures !lines[1..][j].MatchLine? { assert lines[1..][j] == lines[j + 1]; }
    }
    if !lines[0].MatchLine? && Live(lines[1..], k) {
      forall j | 0 <= j < k + 1 ensures !lines[j].MatchLine? { assert j > 0 ==> lines[j] == lines[1..][j - 1]; }
    }
  }

  ghost predicate Met(src: Sources, lines: seq<Line>, file: string, depth: nat, s: Step)
    requires depth <= INCLUDE_MAX_DEPTH
  {
    s in FlattenLines(src, lines, file, depth)
  }

  /** What an include argument brings is its own failure or comes from a readable file it names. */
  lemma PatternHasSource(src: Sources, depth: nat, p: string, s: Step) returns (g: string)
    requires depth < INCLUDE_MAX_DEPTH && FromPattern(src, depth, p, s)
    ensures || (s.Fault? && FailsOn(src, p, s.error))
            || (Names(src, p, g) && src.read(g).Ok? && Met(src, src.read(g).value, g, depth + 1, s))
  {
    g := "";
    if src.expand(p).Ok? {
      g :| g in src.expand(p).value && FromFile(src, depth, g, s);
    }
  }

  /** The same for an include line. */
  lemma IncludeHasSource(src: Sources, lines: seq<Line>, file: string, depth: nat, k: nat, s: Step) returns (g: string)
    requires depth < INCLUDE_MAX_DEPTH && MadeAt(src, lines, file, depth, k, s) && lines[k].Include?
    ensures || (s.Fault? && FailsIn(src, lines, s.error))
            || (Includes(src, lines, g) && src.read(g).Ok? && Met(src, src.read(g).value, g, depth + 1, s))
  {
    var p :| p in lines[k].patterns && FromPattern(src, depth, p, s);
    g := PatternHasSource(src, depth, p, s);
  }

  lemma ChainGrows(src: Sources, lines: seq<Line>, file: string, g: string, tail: seq<string>, s: Step)
    requires Includes(src, lines, g) && src.read(g).Ok? && MadeBy(src, src.read(g).value, g, tail, s)
    ensures MadeBy(src, lines, file, [g] + tail, s)
  {
    assert ([g] + tail)[1..] == tail;
  }

  lemma SetHere(src: Sources, lines: seq<Line>, file: string, depth: nat, k: nat, s: Step)
    requires depth <= INCLUDE_MAX_DEPTH && MadeAt(src, lines, file, depth, k, s) && !lines[k].Include?
    ensures depth <= Deepest(s) && MakesItself(src, lines, file, s)
  {
  }

  lemma {:induction false} StepHasChain(src: Sources, lines: seq<Line>, file: string, depth: nat, s: Step)
    returns (chain: seq<string>)
    requires depth <= INCLUDE_MAX_DEPTH && Met(src, lines, file, depth, s)
    ensures depth + |chain| <= Deepest(s) && MadeBy(src, lines, file, chain, s)
    decreases INCLUDE_MAX_DEPTH - depth
  {
    InFlattenLines(src, lines, file, depth, s);
    var k: nat :| MadeAt(src, lines, file, depth, k, s);
    chain := [];
    if lines[k].Include? {
      var g := IncludeHasSource(src, lines, file, depth, k, s);
      if !(s.Fault? && FailsIn(src, lines, s.error)) {
        var tail := StepHasChain(src, src.read(g).value, g, depth + 1, s);
        chain := [g] + tail;
        ChainGrows(src, lines, file, g, tail, s);
      }
    } else {
      SetHere(src, lines, file, depth, k, s);
    }
  }

  lemma IncludedIsMet(src: Sources, lines: seq<Line>, file: string, depth: nat, g: string, s: Step)
    requires depth < INCLUDE_MAX_DEPTH
    requires Includes(src, lines, g) && src.read(g).Ok?
    requires Met(src, src.read(g).value, g, depth + 1, s)
    ensures Met(src, lines, file, depth, s)
  {
    var k: nat, p :| Live(lines, k) && lines[k].Include? && p in lines[k].patterns && Names(src, p, g);
    assert FromFile(src, depth, g, s);
    assert FromPattern(src, depth, p, s);
    assert MadeAt(src, lines, file, depth, k, s);
    InFlattenLines(src, lines, file, depth, s);
  }

  lemma MadeHereIsMet(src: Sources, lines: seq<Line>, file: string, depth: nat, s: Step)
    requires depth <= Deepest(s) && MakesItself(src, lines, file, s)
    ensures Met(src, lines, file, depth, s)
  {
    match s {
      case Setting(kw, value, _) =>
        var k: nat :| Live(lines, k) && lines[k] == Directive(kw, value);
        assert MadeAt(src, lines, file, depth, k, s);
      case Fault(e) =>
        var k: nat, p :| Live(lines, k) && lines[k].Include? && p in lines[k].patterns && FailsOn(src, p, e);
        if src.expand(p).Ok? {
          var g :| Names(src, p, g) && src.read(g) == Err(e);
          assert FromFile(src, depth, g, s);
        }
        assert FromPattern(src, depth, p, s);
        assert MadeAt(src, lines, file, depth, k, s);
    }
    InFlattenLines(src, lines, file, depth, s);
  }

  lemma {:induction false} ChainMakesStep(src: Sources, lines: seq<Line>, file: string, depth: nat,
                                          chain: seq<string>, s: Step)
    requires depth + |chain| <= Deepest(s) && MadeBy(src, lines, file, chain, s)
    ensures Met(src, lines, file, depth, s)
    decreases |chain|
  {
    if chain == [] {
      MadeHereIsMet(src, lines, file, depth, s);
    } else {
      ChainMakesStep(src, src.read(chain[0]).value, chain[0], depth + 1, chain[1..], s);
      IncludedIsMet(src, lines, file, depth, chain[0], s);
    }
  }

  /** A step is met exactly when a chain of includes, each on a line before its file's `Match` line,
      leads from the main file to a file that makes it before its own `Match`: at most eight includes
      to a file with the setting, at most seven to one with an include that cannot be listed or read. */
  lemma StepsByIncludeChains(src: Sources, lines: seq<Line>, file: string, s: Step)
    ensures s in FlattenLines(src, lines, file, 0) <==>
            exists chain :: |chain| <= (if s.Setting? then 8 else 7) && MadeBy(src, lines, file, chain, s)
  {
    if Met(src, lines, file, 0, s) {
      var chain := StepHasChain(src, lines, file, 0, s);
    }
    if chain :| |chain| <= Deepest(s) && MadeBy(src, lines, file, chain, s) {
      ChainMakesStep(src, lines, file, 0, chain, s);
    }
  }

  /** No include argument of this host expands to a not-found error. */
  ghost predicate ExpandsQuietly(src: Sources) { forall p :: src.expand(p) != Err(NotFound) }

  /** A missing file or directory is never an error of the scan: such includes are skipped. */
  lemma {:induction false} NoNotFoundInLines(src: Sources, lines: seq<Line>, file: string, depth: nat)
    requires depth <= INCLUDE_MAX_DEPTH && ExpandsQuietly(src)
    ensures Fault(NotFound) !in FlattenLines(src, lines, file, depth)
    decreases INCLUDE_MAX_DEPTH - depth, 2, |lines|
  {
    if lines != [] {
      if !lines[0].MatchLine? { NoNotFoundInLines(src, lines[1..], file, depth); }
      if lines[0].Include? && depth < INCLUDE_MAX_DEPTH {
        NoNotFoundInPatterns(src, lines[0].patterns, depth);
      }
    }
  }

  lemma {:induction false} NoNotFoundInPatterns(src: Sources, patterns: seq<string>, depth: nat)
    requires depth < INCLUDE_MAX_DEPTH && ExpandsQuietly(src)
    ensures Fault(NotFound) !in FlattenPatterns(src, patterns, depth)
    decreases INCLUDE_MAX_DEPTH - depth, 1, |patterns|
  {
    if patterns != [] {
      NoNotFoundInPatterns(src, patterns[1..], depth);
      var r := src.expand(patterns[0]);
      if r.Ok? { NoNotFoundInFiles(src, r.value, depth); }
    }
  }

  lemma {:induction false} NoNotFoundInFiles(src: Sources, files: seq<string>, depth: nat)
    requires depth < INCLUDE_MAX_DEPTH && ExpandsQuietly(src)
    ensures Fault(NotFound) !in FlattenFiles(src, files, depth)
    decreases INCLUDE_MAX_DEPTH - depth, 0, |files|
  {
    if files != [] {
      NoNotFoundInFiles(src, files[1..], depth);
      var r := src.read(files[0]);
      if r.Ok? { NoNotFoundInLines(src, r.value, files[0], depth + 1); }
    }
  }

  lemma NoSuchDirectoryIsQuiet(host: Host, base: string, pattern: string)
    ensures Expand(host, base, pattern) != Err(NotFound)
  {
  }

  lemma ExpandingIsQuiet(host: Host, base: string)
    ensures ExpandsQuietly(SourcesOf(host, base))
  {
    var src := SourcesOf(host, base);
    forall p ensures src.expand(p) != Err(NotFound) { NoSuchDirectoryIsQuiet(host, base, p); }
  }

  lemma MissingIsSkipped(host: Host, base: string, lines: seq<Line>, file: string)
    ensures Fault(NotFound) !in FlattenLines(SourcesOf(host, base), lines, file, 0)
  {
    ExpandingIsQuiet(host, base);
    NoNotFoundInLines(SourcesOf(host, base), lines, file, 0);
  }

  // ---------- the lookup and the rules judged on it ----------

  datatype Lookup = FileMissing | Absent | Found(value: string, file: string)

  /** What the complete reading of the file at `path` answers. */
  function Effective(host: Host, path: string, directive: string): Result<Lookup> {
    match host.Read(path)
    case Err(NotFound) => Ok(FileMissing)
    case Err(e) => Err(e)
    case Ok(text) =>
      match FirstHit(FlattenLines(SourcesOf(host, ParentDir(path)), Parsed(text), path, 0), Lower(directive))
      case Err(e) => Err(e)
      case Ok(None) => Ok(Absent)
      case Ok(Some(h)) => Ok(Found(h.value, h.file))
  }

  /** The effective global value of a directive in the file at `path`. */
  method SshdEffective(host: Host, path: string, directive: string) returns (r: Result<Lookup>)
    ensures r == Effective(host, path, directive) && r != Err(NotFound)
    ensures r == Ok(FileMissing) <==> host.Read(path) == Err(NotFound)
    ensures host.Read(path).Err? && host.Read(path) != Err(NotFound) ==> r == Err(host.Read(path).error)
  {
    match host.Read(path)
    case Err(NotFound) => r := Ok(FileMissing);
    case Err(e) => r := Err(e);
    case Ok(text) =>
      var base := ParentDir(path);
      ghost var steps := FlattenLines(SourcesOf(host, base), Parsed(text), path, 0);
      ghost var i := FirstHitByPosition(steps, Lower(directive));
      MissingIsSkipped(host, base, Parsed(text), path);
      var hit := Scan(host, text, path, base, Lower(directive), 0);
      match hit
      case Err(e) => r := Err(e);
      case Ok(None) => r := Ok(Absent);
      case Ok(Some(h)) => r := Ok(Found(h.value, h.file));
  }

  /** A `config` rule after JSON decoding; a field of the wrong JSON type reads as absent. */
  datatype Rule = Rule(path: Option<string>, directive: Option<string>, allowed: Option<seq<string>>,
                       expected: Option<string>, default: Option<string>, missingFile: Option<string>,
                       format: Option<string>)

  datatype Outcome = Pass | Fail | Unknown | Error

  function LowerAll(values: seq<string>): (r: seq<string>)
    ensures |r| == |values| && forall i | 0 <= i < |r| :: r[i] == Lower(values[i])
  {
    seq(|values|, i requires 0 <= i < |values| => Lower(values[i]))
  }

  function AllowedValues(rule: Rule): seq<string> {
    if rule.allowed.Some? then LowerAll(rule.allowed.value)
    else if rule.expected.Some? then [Lower(rule.expected.value)] else []
  }

  function MissingFileChoice(rule: Rule): string {
    if rule.missingFile.Some? then rule.missingFile.value else "unknown"
  }

  /** The rule names the value, in either case. */
  ghost predicate Allows(rule: Rule, value: string) {
    if rule.allowed.Some? then exists a :: a in rule.allowed.value && SameWord(a, value)
    else rule.expected.Some? && SameWord(rule.expected.value, value)
  }

  /** Path, directive and at least one value are given, and the choices are known ones. */
  ghost predicate IsSound(rule: Rule) {
    && rule.path.Some? && rule.directive.Some?
    && (if rule.allowed.Some? then rule.allowed.value != [] else rule.expected.Some?)
    && (rule.missingFile.None? || rule.missingFile == Some("pass") || rule.missingFile == Some("fail")
        || rule.missingFile == Some("unknown"))
    && (rule.format.None? || rule.format == Some("sshd"))
  }

  /** The outcome of a sound rule: what could not be read, or is unset without a default, is unknown. */
  ghost function Verdict(host: Host, rule: Rule): Outcome
    requires IsSound(rule)
  {
    match Effective(host, rule.path.value, rule.directive.value)
    case Err(_) => Unknown
    case Ok(FileMissing) =>
      if rule.missingFile == Some("pass") then Pass else if rule.missingFile == Some("fail") then Fail else Unknown
    case Ok(Absent) =>
      if rule.default.None? then Unknown else if Allows(rule, rule.default.value) then Pass else Fail
    case Ok(Found(value, _)) => if Allows(rule, value) then Pass else Fail
  }

  lemma LoweredIn(all: seq<string>, value: string)
    ensures Lower(value) in LowerAll(all) <==> exists a :: a in all && SameWord(a, value)
  {
    var low := LowerAll(all);
    if a :| a in all && SameWord(a, value) {
      var i :| 0 <= i < |all| && all[i] == a;
      LowerMeets(a, value);
      assert low[i] == Lower(value);
    }
    if Lower(value) in low {
      var i :| 0 <= i < |low| && low[i] == Lower(value);
      LowerMeets(all[i], value);
      assert all[i] in all;
    }
  }

  lemma AllowsMeans(rule: Rule, value: string)
    ensures Lower(value) in AllowedValues(rule) <==> Allows(rule, value)
  {
    if rule.allowed.Some? {
      LoweredIn(rule.allowed.value, value);
    } else if rule.expected.Some? {
      LowerMeets(rule.expected.value, value);
    }
  }

  /** A rule is an error exactly when it is malformed, and otherwise judged by the effective value. */
  method EvalConfig(host: Host, rule: Rule) returns (o: Outcome)
    ensures o == if IsSound(rule) then Verdict(host, rule) else Error
  {
    if rule.path.None? || rule.directive.None? || (rule.allowed.None? && rule.expected.None?) { return Error; }
    var allowed := AllowedValues(rule);
    if allowed == [] { return Error; }
    if MissingFileChoice(rule) !in ["pass", "fail", "unknown"] { return Error; }
    if rule.format.Some? && rule.format.value != "sshd" { return Error; }
    var found := SshdEffective(host, rule.path.value, rule.directive.value);
    match found
    case Ok(Found(value, _)) =>
      AllowsMeans(rule, value);
      o := if Lower(value) in allowed then Pass else Fail;
    case Ok(Absent) =>
      if rule.default.Some? { AllowsMeans(rule, rule.default.value); }
      o := if rule.default.None? then Unknown
           else if Lower(rule.default.value) in allowed then Pass else Fail;
    case Ok(FileMissing) =>
      o := if MissingFileChoice(rule) == "pass" then Pass
           else if MissingFileChoice(rule) == "fail" then Fail else Unknown;
    case Err(_) => o := Unknown;
  }

  function Count(outcomes: seq<Outcome>, o: Outcome): nat {
    if outcomes == [] then 0 else (if outcomes[0] == o then 1 else 0) + Count(outcomes[1..], o)
  }

  lemma {:induction false} CountIsExact(outcomes: seq<Outcome>, o: Outcome)
    ensures Count(outcomes, o) == multiset(outcomes)[o]
    ensures Count(outcomes, Pass) + Count(outcomes, Fail) + Count(outcomes, Unknown) + Count(outcomes, Error)
            == |outcomes|
  {
    if outcomes != [] {
      CountIsExact(outcomes[1..], o);
      assert outcomes == [outcomes[0]] + outcomes[1..];
    }
  }

  /** The roll-up counts each outcome once and passes only a bundle whose every rule passed. */
  method RollUp(outcomes: seq<Outcome>) returns (pass: bool, p: nat, f: nat, u: nat, e: nat)
    ensures pass <==> forall o | o in outcomes :: o == Pass
    ensures p == multiset(outcomes)[Pass] && f == multiset(outcomes)[Fail]
    ensures u == multiset(outcomes)[Unknown] && e == multiset(outcomes)[Error]
    ensures p + f + u + e == |outcomes|
  {
    p, f, u, e := Count(outcomes, Pass), Count(outcomes, Fail), Count(outcomes, Unknown), Count(outcomes, Error);
    CountIsExact(outcomes, Pass);
    CountIsExact(outcomes, Fail);
    CountIsExact(outcomes, Unknown);
    CountIsExact(outcomes, Error);
    assert forall o :: o in outcomes <==> o in multiset(outcomes);
    pass := f == 0 && u == 0 && e == 0;
  }
}
