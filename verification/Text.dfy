/** String operations of the Rust and Python standard libraries that the tools rely on. */
module Text {
  import opened Collections

  /** Unicode White_Space, which `char::is_whitespace` and `str::trim` use. */
  predicate IsSpace(c: char) {
    var n := c as int;
    || 0x09 <= n <= 0x0D || n == 0x20 || n == 0x85 || n == 0xA0 || n == 0x1680 || 0x2000 <= n <= 0x200A
    || n == 0x2028 || n == 0x2029 || n == 0x202F || n == 0x205F || n == 0x3000
  }

  function TrimStart(s: string): string {
    if s != "" && IsSpace(s[0]) then TrimStart(s[1..]) else s
  }

  function TrimEnd(s: string): string {
    if s != "" && IsSpace(s[|s| - 1]) then TrimEnd(s[..|s| - 1]) else s
  }

  function Trim(s: string): string { TrimEnd(TrimStart(s)) }

  function LowerChar(c: char): char {
    if 'A' <= c <= 'Z' then (c as int + 32) as char else c
  }

  /** `to_ascii_lowercase`. */
  function Lower(s: string): string {
    if s == "" then "" else [LowerChar(s[0])] + Lower(s[1..])
  }

  /** `str::lines`: the pieces between line feeds, without a last empty piece. A carriage return
      before the line feed stays on here; every caller trims its lines. */
  function Lines(s: string): seq<string> { LinesFrom(s, "") }

  function LinesFrom(s: string, cur: string): seq<string> {
    if s == "" then (if cur == "" then [] else [cur])
    else if s[0] == '\n' then [cur] + LinesFrom(s[1..], "")
    else LinesFrom(s[1..], cur + [s[0]])
  }

  // ---------- letters in either case ----------

  /** The same character, or the same ASCII letter in the other case. */
  predicate SameLetter(c: char, d: char) {
    || c == d
    || ('A' <= c <= 'Z' && d as int - c as int == 32)
    || ('A' <= d <= 'Z' && c as int - d as int == 32)
  }

  /** The same word, letter by letter, in any case. */
  predicate SameWord(a: string, b: string) {
    |a| == |b| && forall i | 0 <= i < |a| :: SameLetter(a[i], b[i])
  }

  lemma {:induction false} LowerIsByLetter(s: string)
    ensures |Lower(s)| == |s| && forall i | 0 <= i < |s| :: Lower(s)[i] == LowerChar(s[i])
  {
    if s != "" { LowerIsByLetter(s[1..]); }
  }

  /** Lower-casing makes exactly the words alike that are the same in either case. */
  lemma LowerMeets(a: string, b: string)
    ensures Lower(a) == Lower(b) <==> SameWord(a, b)
  {
    LowerIsByLetter(a);
    LowerIsByLetter(b);
    if SameWord(a, b) {
      assert forall i | 0 <= i < |a| :: Lower(a)[i] == Lower(b)[i];
    }
    if Lower(a) == Lower(b) {
      forall i | 0 <= i < |a| ensures SameLetter(a[i], b[i]) {
        assert LowerChar(a[i]) == Lower(a)[i] == Lower(b)[i] == LowerChar(b[i]);
      }
    }
  }

  lemma {:induction false} LowerTwice(s: string)
    ensures Lower(Lower(s)) == Lower(s)
  {
    LowerIsByLetter(s);
    LowerIsByLetter(Lower(s));
  }

  // ---------- blanks and lines ----------

  /** Of the ASCII characters, tab to carriage return and the space are blank. */
  lemma AsciiSpaces(c: char)
    requires c as int < 128
    ensures IsSpace(c) <==> c in "\t\n\r \U{0B}\U{0C}"
  {
  }

  ghost predicate Blanks(s: string) { forall i | 0 <= i < |s| :: IsSpace(s[i]) }

  lemma {:induction false} StartIsTrimmed(blanks: string, s: string)
    requires Blanks(blanks) && (s == "" || !IsSpace(s[0]))
    ensures TrimStart(blanks + s) == s
  {
    if blanks == "" {
      assert blanks + s == s;
    } else {
      assert (blanks + s)[1..] == blanks[1..] + s;
      StartIsTrimmed(blanks[1..], s);
    }
  }

  lemma {:induction false} EndIsTrimmed(s: string, blanks: string)
    requires Blanks(blanks) && (s == "" || !IsSpace(s[|s| - 1]))
    ensures TrimEnd(s + blanks) == s
    decreases |blanks|
  {
    if blanks == "" {
      assert s + blanks == s;
    } else {
      assert (s + blanks)[..|s + blanks| - 1] == s + blanks[..|blanks| - 1];
      EndIsTrimmed(s, blanks[..|blanks| - 1]);
    }
  }

  /** Blanks around a text that neither begins nor ends with one are trimmed, and nothing else. */
  lemma TrimsTo(before: string, s: string, after: string)
    requires Blanks(before) && Blanks(after) && (s != "" ==> !IsSpace(s[0]) && !IsSpace(s[|s| - 1]))
    ensures Trim(before + (s + after)) == s
  {
    if s == "" {
      assert before + ("" + after) == (before + after) + "";
      StartIsTrimmed(before + after, "");
    } else {
      StartIsTrimmed(before, s + after);
      EndIsTrimmed(s, after);
    }
  }

  /** Lines, each with its line feed. */
  function Unlines(lines: seq<string>): string {
    if lines == [] then "" else (lines[0] + "\n") + Unlines(lines[1..])
  }

  lemma {:induction false} LineIsRead(line: string, cur: string, rest: string)
    requires '\n' !in line
    ensures LinesFrom(line + ("\n" + rest), cur) == [cur + line] + LinesFrom(rest, "")
    decreases |line|
  {
    var s := line + ("\n" + rest);
    if line == "" {
      assert s == "\n" + rest && s[1..] == rest && cur + line == cur;
    } else {
      assert s[1..] == line[1..] + ("\n" + rest);
      LineIsRead(line[1..], cur + [line[0]], rest);
      assert cur + [line[0]] + line[1..] == cur + line;
    }
  }

  lemma {:induction false} LastLineIsRead(line: string, cur: string)
    requires '\n' !in line
    ensures LinesFrom(line, cur) == if cur + line == "" then [] else [cur + line]
    decreases |line|
  {
    if line == "" {
      assert cur + line == cur;
    } else {
      LastLineIsRead(line[1..], cur + [line[0]]);
      assert cur + [line[0]] + line[1..] == cur + line;
    }
  }

  /** Reading lines undoes writing them; a last line needs no line feed. */
  lemma {:induction false} LinesUndoUnlines(lines: seq<string>, last: string)
    requires '\n' !in last && forall i | 0 <= i < |lines| :: '\n' !in lines[i]
    ensures Lines(Unlines(lines) + last) == lines + if last == "" then [] else [last]
    decreases |lines|
  {
    if lines == [] {
      assert Unlines(lines) + last == last && "" + last == last;
      LastLineIsRead(last, "");
    } else {
      var rest := Unlines(lines[1..]) + last;
      assert Unlines(lines) + last == lines[0] + ("\n" + rest);
      LineIsRead(lines[0], "", rest);
      LinesUndoUnlines(lines[1..], last);
      assert "" + lines[0] == lines[0] && lines == [lines[0]] + lines[1..];
    }
  }

  function LastIndexOf(s: string, p: char -> bool): (i: int)
    ensures -1 <= i < |s|
    ensures i >= 0 ==> p(s[i])
    ensures forall j | i < j < |s| :: !p(s[j])
  {
    if s == "" then -1
    else if p(s[|s| - 1]) then |s| - 1
    else LastIndexOf(s[..|s| - 1], p)
  }

  // ---------- numbers ----------

  function Digit(n: nat): (c: char)
    requires n < 10
    ensures '0' <= c <= '9'
  {
    ('0' as int + n) as char
  }

  /** A number in decimal. */
  function Decimal(n: nat): (r: string)
    ensures r != "" && forall i | 0 <= i < |r| :: '0' <= r[i] <= '9'
  {
    if n < 10 then [Digit(n)] else Decimal(n / 10) + [Digit(n % 10)]
  }

  /** The number a text of decimal digits stands for. */
  function Value(s: string): int {
    if s == "" then 0 else 10 * Value(s[..|s| - 1]) + (s[|s| - 1] as int - '0' as int)
  }

  /** Reading the text gives the number back, and it has no leading zero. */
  lemma {:induction false} DecimalReads(n: nat)
    ensures Value(Decimal(n)) == n && (n > 0 ==> Decimal(n)[0] != '0')
  {
    if n < 10 {
      assert Decimal(n)[..0] == "";
    } else {
      DecimalReads(n / 10);
      var s := Decimal(n);
      assert s[..|s| - 1] == Decimal(n / 10);
    }
  }

  lemma DecimalIsInjective(a: nat, b: nat)
    requires Decimal(a) == Decimal(b)
    ensures a == b
  {
    DecimalReads(a);
    DecimalReads(b);
  }

  // ---------- lexicographic order and sorting ----------

  /** Byte-wise string order, which for UTF-8 is the order of the code points. */
  predicate Leq(a: string, b: string) {
    a == "" || (b != "" && (a[0] < b[0] || (a[0] == b[0] && Leq(a[1..], b[1..]))))
  }

  lemma {:induction false} LeqTotal(a: string, b: string)
    ensures Leq(a, b) || Leq(b, a)
    ensures Leq(a, b) && Leq(b, a) ==> a == b
    ensures Leq(a, a)
  {
    if a != "" {
      LeqTotal(a[1..], a[1..]);
      if b != "" {
        LeqTotal(a[1..], b[1..]);
        assert a == [a[0]] + a[1..] && b == [b[0]] + b[1..];
      }
    }
  }

  lemma {:induction false} LeqTransitive(a: string, b: string, c: string)
    requires Leq(a, b) && Leq(b, c)
    ensures Leq(a, c)
  {
    if a != "" && a[0] == b[0] == c[0] { LeqTransitive(a[1..], b[1..], c[1..]); }
  }

  ghost predicate Sorted(s: seq<string>) {
    forall i, j | 0 <= i < j < |s| :: Leq(s[i], s[j])
  }

  function Insert(x: string, s: seq<string>): seq<string> {
    if s == [] then [x] else if Leq(x, s[0]) then [x] + s else [s[0]] + Insert(x, s[1..])
  }

  /** `Vec<String>::sort`. */
  function Sort(s: seq<string>): seq<string> {
    if s == [] then [] else Insert(s[0], Sort(s[1..]))
  }

  lemma {:induction false} InsertAdds(x: string, s: seq<string>)
    ensures multiset(Insert(x, s)) == multiset(s) + multiset{x}
  {
    if s != [] {
      assert s == [s[0]] + s[1..];
      InsertAdds(x, s[1..]);
    }
  }

  lemma SortedCons(x: string, s: seq<string>)
    requires Sorted(s) && forall y | y in s :: Leq(x, y)
    ensures Sorted([x] + s)
  {
    var r := [x] + s;
    forall i, j | 0 <= i < j < |r| ensures Leq(r[i], r[j]) {
      assert r[j] == s[j - 1];
    }
  }

  lemma {:induction false} InsertKeepsOrder(x: string, s: seq<string>)
    requires Sorted(s)
    ensures Sorted(Insert(x, s))
  {
    if s != [] {
      LeqTotal(x, s[0]);
      if Leq(x, s[0]) {
        forall y | y in s ensures Leq(x, y) {
          var j :| 0 <= j < |s| && s[j] == y;
          if j > 0 { LeqTransitive(x, s[0], s[j]); }
        }
        SortedCons(x, s);
      } else {
        InsertKeepsOrder(x, s[1..]);
        InsertAdds(x, s[1..]);
        forall y | y in Insert(x, s[1..]) ensures Leq(s[0], y) {
          assert y in multiset(Insert(x, s[1..]));
        }
        SortedCons(s[0], Insert(x, s[1..]));
      }
    }
  }

  /** Sorting puts the same strings, each as often as before, in ascending order. */
  lemma {:induction false} SortSorts(s: seq<string>)
    ensures Sorted(Sort(s)) && multiset(Sort(s)) == multiset(s)
  {
    if s != [] {
      assert s == [s[0]] + s[1..];
      SortSorts(s[1..]);
      InsertKeepsOrder(s[0], Sort(s[1..]));
      InsertAdds(s[0], Sort(s[1..]));
    }
  }

  lemma TwiceIsTwo<T>(s: seq<T>, i: nat, j: nat)
    requires i < j < |s| && s[i] == s[j]
    ensures multiset(s)[s[i]] >= 2
  {
    assert s == s[..j] + s[j..];
    assert s[i] == s[..j][i] && s[j] == s[j..][0];
    assert s[i] in multiset(s[..j]) && s[i] in multiset(s[j..]);
  }

  lemma SortKeepsSet(s: seq<string>)
    requires AllDistinct(s)
    ensures AllDistinct(Sort(s)) && Elems(Sort(s)) == Elems(s) && Sorted(Sort(s))
  {
    var t := Sort(s);
    SortSorts(s);
    DistinctSize(s);
    forall x ensures x in t <==> x in s {
      assert x in t <==> x in multiset(t);
    }
    if i, j :| 0 <= i < j < |t| && t[i] == t[j] {
      TwiceIsTwo(t, i, j);
    }
  }

  /** Different things have different names. */
  ghost predicate NamesApart<T>(all: set<T>, name: T -> string) {
    forall c, d | c in all && d in all && name(c) == name(d) :: c == d
  }

  /** A set listed once, in the order of its names. */
  ghost predicate Lists<T>(order: seq<T>, all: set<T>, name: T -> string) {
    && Elems(order) == all && AllDistinct(order)
    && forall i, j | 0 <= i < j < |order| :: Leq(name(order[i]), name(order[j]))
  }

  /** Things sorted by their names. */
  method SortedBy<T>(all: set<T>, name: T -> string) returns (order: seq<T>)
    requires NamesApart(all, name)
    ensures Lists(order, all, name) && forall c :: c in order <==> c in all
  {
    var list := ListSet(all);
    var names := seq(|list|, i requires 0 <= i < |list| => name(list[i]));
    NamesAreApart(all, list, names, name);
    SortKeepsSet(names);
    var sorted := Sort(names);
    forall x ensures x in sorted <==> x in names { assert x in Elems(sorted) <==> x in Elems(names); }
    var byName := map c | c in all :: name(c) := c;
    assert forall i | 0 <= i < |sorted| :: sorted[i] in sorted;
    order := seq(|sorted|, i requires 0 <= i < |sorted| => byName[sorted[i]]);
    OrderIsWhole(all, names, sorted, order, name);
  }

  lemma NamesAreApart<T>(all: set<T>, list: seq<T>, names: seq<string>, name: T -> string)
    requires NamesApart(all, name) && AllDistinct(list) && forall c :: c in list <==> c in all
    requires |names| == |list| && forall i | 0 <= i < |list| :: names[i] == name(list[i])
    ensures AllDistinct(names) && forall x :: x in names <==> exists c | c in all :: name(c) == x
  {
    forall i, j | 0 <= i < j < |names| ensures names[i] != names[j] {
      assert list[i] in all && list[j] in all;
    }
    forall x ensures x in names <==> exists c | c in all :: name(c) == x {
      if c :| c in all && name(c) == x {
        var i :| 0 <= i < |list| && list[i] == c;
        assert names[i] == x;
      }
      if x in names {
        var i :| 0 <= i < |names| && names[i] == x;
        assert list[i] in all;
      }
    }
  }

  lemma OrderIsWhole<T>(all: set<T>, names: seq<string>, sorted: seq<string>, order: seq<T>, name: T -> string)
    requires NamesApart(all, name) && forall x :: x in names <==> exists c | c in all :: name(c) == x
    requires AllDistinct(sorted) && Sorted(sorted) && forall x :: x in sorted <==> x in names
    requires |order| == |sorted| && forall i | 0 <= i < |sorted| :: order[i] in all && name(order[i]) == sorted[i]
    ensures (forall c :: c in order <==> c in all) && AllDistinct(order)
  {
    forall c ensures c in order <==> c in all {
      if c in all {
        assert name(c) in names && name(c) in sorted;
        var i :| 0 <= i < |sorted| && sorted[i] == name(c);
        assert order[i] == c;
      }
    }
  }

  lemma ListedAre<T>(order: seq<T>, all: set<T>, name: T -> string)
    requires Lists(order, all, name)
    ensures forall c :: c in order <==> c in all
  {
    assert forall c :: c in order <==> c in Elems(order);
  }

  lemma FirstIsLeast<T>(all: set<T>, order: seq<T>, name: T -> string)
    requires Lists(order, all, name) && order != []
    ensures order[0] in all && forall c | c in all :: Leq(name(order[0]), name(c))
  {
    LeqTotal(name(order[0]), name(order[0]));
    ListedAre(order, all, name);
    assert order[0] in order;
    forall c | c in all ensures Leq(name(order[0]), name(c)) {
      var i :| 0 <= i < |order| && order[i] == c;
    }
  }

  lemma RestIsListed<T>(all: set<T>, order: seq<T>, name: T -> string)
    requires Lists(order, all, name) && order != []
    ensures Lists(order[1..], all - {order[0]}, name)
  {
    assert order == [order[0]] + order[1..];
    assert forall k | 0 <= k < |order| - 1 :: order[1..][k] == order[k + 1] != order[0];
    ListedAre(order, all, name);
    assert Elems(order) == {order[0]} + Elems(order[1..]) && order[0] !in order[1..];
  }

  /** With distinct names there is one such list. */
  lemma {:induction false} OneOrder<T>(all: set<T>, a: seq<T>, b: seq<T>, name: T -> string)
    requires NamesApart(all, name) && Lists(a, all, name) && Lists(b, all, name)
    ensures a == b
    decreases |a|
  {
    DistinctSize(a);
    DistinctSize(b);
    if a != [] {
      FirstIsLeast(all, a, name);
      FirstIsLeast(all, b, name);
      LeqTotal(name(a[0]), name(b[0]));
      assert a[0] == b[0];
      RestIsListed(all, a, name);
      RestIsListed(all, b, name);
      OneOrder(all - {a[0]}, a[1..], b[1..], name);
      assert a == [a[0]] + a[1..] && b == [b[0]] + b[1..];
    }
  }

  /** A common beginning does not matter. */
  lemma {:induction false} LeqBehind(p: string, a: string, b: string)
    ensures Leq(p + a, p + b) <==> Leq(a, b)
  {
    if p == "" {
      assert p + a == a && p + b == b;
    } else {
      assert (p + a)[1..] == p[1..] + a && (p + b)[1..] == p[1..] + b;
      LeqBehind(p[1..], a, b);
    }
  }

  // ---------- replacing ----------

  /** `str.replace(part, "")`. */
  function Without(s: string, part: string): string
    requires part != ""
  {
    if s == "" then ""
    else if part <= s then Without(s[|part|..], part)
    else [s[0]] + Without(s[1..], part)
  }

  /** `str.replace` of one character by another. */
  function Swapped(s: string, a: char, b: char): string {
    if s == "" then "" else [if s[0] == a then b else s[0]] + Swapped(s[1..], a, b)
  }
}
