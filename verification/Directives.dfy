/** What a line of a configuration file means, and what the effective value of a directive is in a file
    given by its lines (tools/compliance-scan/src/main.rs:171-196, 212-295). */
module Directives {
  import opened ConfigScan
  import opened Text
  import opened Wrappers
  import Collections
  import Glob
  import SplitArgs

  // ---------- the shape of a line ----------

  /** A keyword, an equals sign or blanks or both, and the rest, with blanks around. */
  datatype Spelled = Spelled(lead: string, keyword: string, before: string, equals: bool, after: string, rest: string,
                             trail: string)

  function Core(l: Spelled): string {
    l.keyword + (l.before + (if l.equals then "=" + (l.after + l.rest) else l.rest))
  }

  function TextOf(l: Spelled): string { l.lead + (Core(l) + l.trail) }

  ghost predicate IsSpelled(l: Spelled) {
    && Blanks(l.lead) && Blanks(l.before) && Blanks(l.after) && Blanks(l.trail)
    && IsKeyword(l.keyword) && l.keyword[0] != '#' && (l.equals || l.before != "")
    && l.rest != "" && !EndsKeyword(l.rest[0]) && !IsSpace(l.rest[|l.rest| - 1])
  }

  /** The first argument of the rest, or nothing. */
  function FirstArgument(rest: string): string {
    var args := SplitArgs.Args(rest);
    if args == [] then "" else args[0]
  }

  lemma ReadsAsSpelled(l: Spelled)
    requires IsSpelled(l)
    ensures Trim(TextOf(l)) == Core(l) && Core(l) != "" && Core(l)[0] != '#'
    ensures SplitKeyword(Core(l)) == (l.keyword, l.rest)
  {
    var core := Core(l);
    assert core[0] == l.keyword[0];
    assert core[|core| - 1] == l.rest[|l.rest| - 1];
    TrimsTo(l.lead, core, l.trail);
    SpellingsAgree(l.keyword, l.before, l.after, l.rest);
  }

  /** A line that is blank or a comment. */
  ghost predicate IsComment(raw: string) {
    exists lead, tail :: raw == lead + tail && Blanks(lead) && (tail == "" || tail[0] == '#')
  }

  lemma CommentIsBlank(raw: string)
    requires IsComment(raw)
    ensures Parse(raw) == Blank
  {
    var lead, tail :| raw == lead + tail && Blanks(lead) && (tail == "" || tail[0] == '#');
    StartIsTrimmed(lead, tail);
    if tail != "" { FirstStays(tail); }
  }

  lemma {:induction false} FirstStays(s: string)
    requires s != "" && !IsSpace(s[0])
    ensures TrimEnd(s) != "" && TrimEnd(s)[0] == s[0]
  {
    if IsSpace(s[|s| - 1]) { FirstStays(s[..|s| - 1]); }
  }

  lemma SpelledMeans(l: Spelled)
    requires IsSpelled(l)
    ensures SameWord(l.keyword, "match") ==> Parse(TextOf(l)) == MatchLine
    ensures SameWord(l.keyword, "include") ==> Parse(TextOf(l)) == Include(SplitArgs.Args(l.rest))
    ensures !SameWord(l.keyword, "match") && !SameWord(l.keyword, "include") ==>
              Parse(TextOf(l)) == Directive(Lower(l.keyword), FirstArgument(l.rest))
  {
    ReadsAsSpelled(l);
    LowerMeets(l.keyword, "match");
    LowerMeets(l.keyword, "include");
    PlainWords();
  }

  lemma PlainWords()
    ensures Lower("match") == "match" && Lower("include") == "include"
  {
    LowerIsByLetter("match");
    LowerIsByLetter("include");
  }

  // ---------- lines that decide nothing ----------

  /** A comment, or another directive than the one wanted. */
  ghost predicate IsOther(raw: string, want: string) {
    || IsComment(raw)
    || exists l :: IsSpelled(l) && raw == TextOf(l) && !SameWord(l.keyword, "match") && !SameWord(l.keyword, "include")
                   && !SameWord(l.keyword, want)
  }

  /** The line sets the wanted directive to `value`. */
  ghost predicate SetsTo(raw: string, want: string, value: string) {
    exists l :: IsSpelled(l) && raw == TextOf(l) && SameWord(l.keyword, want) && !SameWord(l.keyword, "match")
                && !SameWord(l.keyword, "include") && value == FirstArgument(l.rest)
  }

  ghost predicate EndsFile(raw: string) {
    exists l :: IsSpelled(l) && raw == TextOf(l) && SameWord(l.keyword, "match")
  }

  ghost predicate IncludesArgs(raw: string, args: seq<string>) {
    exists l :: IsSpelled(l) && raw == TextOf(l) && SameWord(l.keyword, "include") && args == SplitArgs.Args(l.rest)
  }

  lemma OtherLine(raw: string, want: string)
    requires IsOther(raw, want)
    ensures Parse(raw).Blank? || (Parse(raw).Directive? && Parse(raw).keyword != Lower(want))
  {
    if IsComment(raw) {
      CommentIsBlank(raw);
    } else {
      var l :| IsSpelled(l) && raw == TextOf(l) && !SameWord(l.keyword, "match") && !SameWord(l.keyword, "include")
               && !SameWord(l.keyword, want);
      SpelledMeans(l);
      LowerMeets(l.keyword, want);
    }
  }

  lemma SettingLine(raw: string, want: string, value: string)
    requires SetsTo(raw, want, value)
    ensures Parse(raw) == Directive(Lower(want), value)
  {
    var l :| IsSpelled(l) && raw == TextOf(l) && SameWord(l.keyword, want) && !SameWord(l.keyword, "match")
             && !SameWord(l.keyword, "include") && value == FirstArgument(l.rest);
    SpelledMeans(l);
    LowerMeets(l.keyword, want);
  }

  lemma MatchingLine(raw: string)
    requires EndsFile(raw)
    ensures Parse(raw) == MatchLine
  {
    var l :| IsSpelled(l) && raw == TextOf(l) && SameWord(l.keyword, "match");
    SpelledMeans(l);
  }

  lemma IncludingLine(raw: string, args: seq<string>)
    requires IncludesArgs(raw, args)
    ensures Parse(raw) == Include(args)
  {
    var l :| IsSpelled(l) && raw == TextOf(l) && SameWord(l.keyword, "include") && args == SplitArgs.Args(l.rest);
    SpelledMeans(l);
  }

  // ---------- a file given by its lines ----------

  ghost predicate OneEach(lines: seq<string>) { forall i | 0 <= i < |lines| :: '\n' !in lines[i] }

  function ParseAll(lines: seq<string>): (r: seq<Line>)
    ensures |r| == |lines| && forall i | 0 <= i < |r| :: r[i] == Parse(lines[i])
  {
    seq(|lines|, i requires 0 <= i < |lines| => Parse(lines[i]))
  }

  lemma FileIsItsLines(lines: seq<string>)
    requires OneEach(lines)
    ensures Parsed(Unlines(lines)) == ParseAll(lines)
  {
    LinesUndoUnlines(lines, "");
    assert Unlines(lines) + "" == Unlines(lines) && lines + [] == lines;
  }

  /** Lines that are comments or set something else come to nothing. */
  lemma {:induction false} OthersAreSkipped(src: Sources, lines: seq<string>, i: nat, file: string, want: string,
                                            depth: nat)
    requires i <= |lines| && depth <= INCLUDE_MAX_DEPTH && forall j | 0 <= j < i :: IsOther(lines[j], want)
    ensures FirstHit(FlattenLines(src, ParseAll(lines), file, depth), Lower(want))
            == FirstHit(FlattenLines(src, ParseAll(lines)[i..], file, depth), Lower(want))
    decreases i
  {
    var all := ParseAll(lines);
    if i == 0 {
      assert all[0..] == all;
    } else {
      OthersAreSkipped(src, lines, i - 1, file, want, depth);
      OtherLine(lines[i - 1], want);
      assert all[i - 1..][0] == Parse(lines[i - 1]) && all[i - 1..][1..] == all[i..];
      SkipsOne(src, all[i - 1..], file, want, depth);
    }
  }

  lemma SkipsOne(src: Sources, lines: seq<Line>, file: string, want: string, depth: nat)
    requires lines != [] && depth <= INCLUDE_MAX_DEPTH
    requires lines[0].Blank? || (lines[0].Directive? && lines[0].keyword != Lower(want))
    ensures FirstHit(FlattenLines(src, lines, file, depth), Lower(want))
            == FirstHit(FlattenLines(src, lines[1..], file, depth), Lower(want))
  {
    if lines[0].Directive? {
      var tail := FlattenLines(src, lines[1..], file, depth);
      assert ([Setting(lines[0].keyword, lines[0].value, file)] + tail)[1..] == tail;
    }
  }

  /** The first line that decides: everything before it is a comment or sets something else. */
  ghost predicate DecidesAt(lines: seq<string>, i: nat, want: string) {
    i < |lines| && OneEach(lines) && forall j | 0 <= j < i :: IsOther(lines[j], want)
  }

  ghost predicate IsFile(host: Host, path: string, lines: seq<string>) { host.Read(path) == Ok(Unlines(lines)) }

  /** A file whose first deciding line sets the directive, in whatever case and spelling, gives its first
      argument. */
  lemma SettingIsFound(host: Host, path: string, lines: seq<string>, i: nat, want: string, value: string)
    requires IsFile(host, path, lines) && DecidesAt(lines, i, want) && SetsTo(lines[i], want, value)
    ensures Effective(host, path, want) == Ok(Found(value, path))
  {
    var src := SourcesOf(host, ParentDir(path));
    SettingDecides(src, lines, i, path, want, value, 0);
    FileIsItsLines(lines);
  }

  lemma SettingDecides(src: Sources, lines: seq<string>, i: nat, file: string, want: string, value: string, depth: nat)
    requires depth <= INCLUDE_MAX_DEPTH && DecidesAt(lines, i, want) && SetsTo(lines[i], want, value)
    ensures FirstHit(FlattenLines(src, ParseAll(lines), file, depth), Lower(want)) == Ok(Some(Hit(value, file)))
  {
    OthersAreSkipped(src, lines, i, file, want, depth);
    SettingLine(lines[i], want, value);
    var rest := ParseAll(lines)[i..];
    assert rest[0] == Directive(Lower(want), value);
  }

  /** A `Match` line, in whatever case, ends the file, and so does its end. */
  lemma MatchEndsIt(host: Host, path: string, lines: seq<string>, i: nat, want: string)
    requires IsFile(host, path, lines) && OneEach(lines) && i <= |lines| && (i < |lines| ==> EndsFile(lines[i]))
    requires forall j | 0 <= j < i :: IsOther(lines[j], want)
    ensures Effective(host, path, want) == Ok(Absent)
  {
    var src := SourcesOf(host, ParentDir(path));
    OthersAreSkipped(src, lines, i, path, want, 0);
    FileIsItsLines(lines);
    if i < |lines| {
      MatchingLine(lines[i]);
      assert ParseAll(lines)[i..][0] == MatchLine;
    }
  }

  /** An include of one file, on the first deciding line, gives what that file sets. */
  lemma IncludeIsFollowed(host: Host, path: string, lines: seq<string>, i: nat, want: string, pattern: string,
                          target: string, inner: seq<string>, j: nat, value: string)
    requires IsFile(host, path, lines) && DecidesAt(lines, i, want) && IncludesArgs(lines[i], [pattern])
    requires Expand(host, ParentDir(path), pattern) == Ok([target])
    requires IsFile(host, target, inner) && DecidesAt(inner, j, want) && SetsTo(inner[j], want, value)
    ensures Effective(host, path, want) == Ok(Found(value, target))
  {
    var src := SourcesOf(host, ParentDir(path));
    OthersAreSkipped(src, lines, i, path, want, 0);
    FileIsItsLines(lines);
    FileIsItsLines(inner);
    IncludingLine(lines[i], [pattern]);
    SettingDecides(src, inner, j, target, want, value, 1);
    var rest := ParseAll(lines)[i..];
    assert rest[0] == Include([pattern]);
    OneFileOnly(src, pattern, target, ParseAll(inner));
    FirstHitAppend(FlattenPatterns(src, [pattern], 0), FlattenLines(src, rest[1..], path, 0), Lower(want));
  }

  lemma OneFileOnly(src: Sources, pattern: string, target: string, lines: seq<Line>)
    requires src.expand(pattern) == Ok([target]) && src.read(target) == Ok(lines)
    ensures FlattenPatterns(src, [pattern], 0) == FlattenLines(src, lines, target, 1)
  {
    assert [pattern][1..] == [] && [target][1..] == [];
    assert FlattenFiles(src, [target], 0) == FlattenLines(src, lines, target, 1) + [];
    assert FlattenPatterns(src, [pattern], 0) == FlattenFiles(src, [target], 0) + [];
  }

  // ---------- which files an include names ----------

  lemma NoSlashIn(name: string)
    requires '/' !in name && '\\' !in name
    ensures forall j | 0 <= j < |name| :: !IsSlash(name[j])
  {
    forall j | 0 <= j < |name| ensures !IsSlash(name[j]) { assert name[j] in name; }
  }

  lemma {:induction false} LastSlash(dir: string, slash: char, name: string)
    requires '/' !in name && '\\' !in name && (slash == '/' || slash == '\\')
    ensures LastIndexOf(dir + [slash] + name, IsSlash) == |dir|
    decreases |name|
  {
    var s := dir + [slash] + name;
    if name == "" {
      assert s[|s| - 1] == slash;
    } else {
      var init, last := name[..|name| - 1], name[|name| - 1];
      assert last in name && name == init + [last];
      assert s == (dir + [slash] + init) + [last] && s[..|s| - 1] == dir + [slash] + init;
      LastSlash(dir, slash, init);
    }
  }

  /** Directory and file name of a path; the directory of a file in the root is the root. */
  lemma PathParts(dir: string, name: string)
    requires '/' !in name && '\\' !in name
    ensures ParentDir(dir + "/" + name) == if dir == "" then "/" else dir
    ensures ParentDir(name) == "."
  {
    LastSlash(dir, '/', name);
    var s := dir + "/" + name;
    assert s[..|dir|] == dir;
    assert dir == "" ==> s[..1] == "/";
    NoSlashIn(name);
  }

  lemma LastPart(base: string, dir: string, slash: char, name: string)
    requires '/' !in name && '\\' !in name && (slash == '/' || slash == '\\')
    ensures DirAndLast(base, dir + [slash] + name).1 == name
    ensures dir != "" ==> DirAndLast(base, dir + [slash] + name).0 == dir
  {
    LastSlash(dir, slash, name);
    var full := dir + [slash] + name;
    assert full[..|dir|] == dir && full[|dir| + 1..] == name;
  }

  /** It begins with a drive, an ASCII character and a colon. */
  ghost predicate HasDrive(path: string) { |path| > 1 && path[0] <= '\U{7F}' && path[1] == ':' }

  /** An absolute argument without wildcards in its last part names one file. */
  lemma PlainInclude(host: Host, base: string, dir: string, slash: char, name: string)
    requires '/' !in name && '\\' !in name && '*' !in name && '?' !in name && (slash == '/' || slash == '\\')
    requires var path := dir + [slash] + name; path[0] == '/' || path[0] == '\\' || HasDrive(path)
    ensures Expand(host, base, dir + [slash] + name) == Ok([dir + [slash] + name])
  {
    LastPart(base, dir, slash, name);
    assert FullPattern(base, dir + [slash] + name) == dir + [slash] + name;
  }

  /** A bare name is taken from the directory of the main file. */
  lemma RelativeInclude(host: Host, base: string, name: string)
    requires '/' !in name && '\\' !in name && '*' !in name && '?' !in name && !HasDrive(name)
    ensures var slash := if '/' in base || '\\' !in base then '/' else '\\';
            Expand(host, base, name) == Ok([base + [slash] + name])
  {
    var slash := if '/' in base || '\\' !in base then '/' else '\\';
    if name != "" { assert name[0] in name; }
    assert FullPattern(base, name) == base + [slash] + name;
    LastPart(base, base, slash, name);
  }

  /** An argument with a wildcard in its last part names the files of that directory that match, in
      ascending order; a directory that is not there names none. */
  lemma WildcardInclude(host: Host, base: string, dir: string, pattern: string)
    requires '/' !in pattern && '\\' !in pattern && ('*' in pattern || '?' in pattern)
    ensures var found := Expand(host, base, "/" + dir + "/" + pattern);
            match host.List("/" + dir)
            case Err(NotFound) => found == Ok([])
            case Err(e) => found == Err(e)
            case Ok(listed) =>
              exists names :: found == Ok(Prefixed("/" + dir + "/", names)) && Sorted(names)
                && forall n :: multiset(names)[n] == if Glob.Accepts(pattern, n) then multiset(listed)[n] else 0
  {
    var full := "/" + dir + "/" + pattern;
    assert full == "/" + dir + ['/'] + pattern;
    LastPart(base, "/" + dir, '/', pattern);
    assert full == "/" + (dir + "/" + pattern);
    assert FullPattern(base, full) == full;
    assert ("/" + dir)[0] == '/' && '/' in "/" + dir;
    GlobIncludeIsSortedFilter(host, base, full);
  }
}
