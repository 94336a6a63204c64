/** The argument splitter of the sshd-style keyword files: blanks separate arguments and a
    `"` toggles quoting (tools/compliance-scan/src/main.rs:180-196). */
module SplitArgs {
  import opened Text
  import Collections

  /** What the character loop still adds for `rest`, holding the argument `cur` so far. */
  function SplitFrom(rest: string, cur: string, quoted: bool, any: bool): seq<string> {
    if rest == "" then (if any then [cur] else [])
    else if rest[0] == '"' then SplitFrom(rest[1..], cur, !quoted, true)
    else if IsSpace(rest[0]) && !quoted then
      if any then [cur] + SplitFrom(rest[1..], "", quoted, false) else SplitFrom(rest[1..], cur, quoted, false)
    else SplitFrom(rest[1..], cur + [rest[0]], quoted, true)
  }

  function Args(line: string): seq<string> { SplitFrom(line, "", false, false) }

  method Split(line: string) returns (out: seq<string>)
    ensures out == Args(line)
    ensures forall a | a in out :: '"' !in a
  {
    TokensAreQuoteFree(line, "", false, false);
    out := [];
    var cur, quoted, any := "", false, false;
    for i := 0 to |line|
      invariant out + SplitFrom(line[i..], cur, quoted, any) == Args(line)
    {
      var c := line[i];
      assert line[i..][1..] == line[i + 1..];
      if c == '"' {
        quoted, any := !quoted, true;
      } else if IsSpace(c) && !quoted {
        if any {
          out, cur, any := out + [cur], "", false;
        }
      } else {
        cur, any := cur + [c], true;
      }
    }
    if any {
      out := out + [cur];
    }
  }

  lemma {:induction false} TokensAreQuoteFree(rest: string, cur: string, quoted: bool, any: bool)
    requires '"' !in cur
    ensures forall a | a in SplitFrom(rest, cur, quoted, any) :: '"' !in a
    decreases |rest|
  {
    if rest == "" {
    } else if rest[0] == '"' {
      TokensAreQuoteFree(rest[1..], cur, !quoted, true);
    } else if IsSpace(rest[0]) && !quoted {
      TokensAreQuoteFree(rest[1..], "", quoted, false);
      TokensAreQuoteFree(rest[1..], cur, quoted, false);
    } else {
      TokensAreQuoteFree(rest[1..], cur + [rest[0]], quoted, true);
    }
  }

  // ---------- quoting every argument is undone by splitting ----------

  function Quote(a: string): string { "\"" + a + "\"" }

  function JoinQuoted(args: seq<string>): string {
    if args == [] then ""
    else if |args| == 1 then Quote(args[0])
    else Quote(args[0]) + " " + JoinQuoted(args[1..])
  }

  /** Inside quotes every character, blanks included, goes to the current argument. */
  lemma {:induction false} InsideQuotes(a: string, rest: string, cur: string)
    requires '"' !in a
    ensures SplitFrom(a + rest, cur, true, true) == SplitFrom(rest, cur + a, true, true)
    decreases |a|
  {
    if a == "" {
      assert a + rest == rest && cur + a == cur;
    } else {
      assert (a + rest)[1..] == a[1..] + rest;
      InsideQuotes(a[1..], rest, cur + [a[0]]);
      assert cur + [a[0]] + a[1..] == cur + a;
    }
  }

  lemma QuotedThen(a: string, rest: string)
    requires '"' !in a
    ensures Args(Quote(a) + rest) == SplitFrom(rest, a, false, true)
  {
    var s := Quote(a) + rest;
    assert s[1..] == a + ("\"" + rest);
    InsideQuotes(a, "\"" + rest, "");
    assert "" + a == a && ("\"" + rest)[1..] == rest;
  }

  /** Round trip for every list of quote-free arguments, empty ones and ones with blanks included. */
  lemma {:induction false} SplitUndoesQuoting(args: seq<string>)
    requires forall a | a in args :: '"' !in a
    ensures Args(JoinQuoted(args)) == args
  {
    if args == [] {
    } else if |args| == 1 {
      assert Quote(args[0]) + "" == Quote(args[0]);
      QuotedThen(args[0], "");
    } else {
      var tail := " " + JoinQuoted(args[1..]);
      assert JoinQuoted(args) == Quote(args[0]) + tail;
      QuotedThen(args[0], tail);
      assert tail[1..] == JoinQuoted(args[1..]);
      SplitUndoesQuoting(args[1..]);
      assert args == [args[0]] + args[1..];
    }
  }

  /** Splitting any line, balanced or not, gives a list that survives quoting and splitting again. */
  lemma SplitIsStable(line: string)
    ensures Args(JoinQuoted(Args(line))) == Args(line)
  {
    TokensAreQuoteFree(line, "", false, false);
    SplitUndoesQuoting(Args(line));
  }

  // ---------- unquoted text ----------

  lemma {:induction false} PlainRun(w: string, rest: string, cur: string, any: bool)
    requires forall i | 0 <= i < |w| :: w[i] != '"' && !IsSpace(w[i])
    ensures SplitFrom(w + rest, cur, false, any) == SplitFrom(rest, cur + w, false, any || w != "")
    decreases |w|
  {
    if w == "" {
      assert w + rest == rest && cur + w == cur;
    } else {
      assert (w + rest)[1..] == w[1..] + rest;
      PlainRun(w[1..], rest, cur + [w[0]], true);
      assert cur + [w[0]] + w[1..] == cur + w;
    }
  }

  /** Any blank ends an unquoted word, and blanks between words do not matter. */
  lemma BlankSeparatesWords(w: string, blank: char, rest: string)
    requires forall i | 0 <= i < |w| :: w[i] != '"' && !IsSpace(w[i])
    requires IsSpace(blank)
    ensures Args(w + [blank] + rest) == (if w == "" then [] else [w]) + Args(rest)
    ensures Args(w) == if w == "" then [] else [w]
  {
    assert w + [blank] + rest == w + ([blank] + rest);
    PlainRun(w, [blank] + rest, "", false);
    assert ([blank] + rest)[1..] == rest && "" + w == w;
    PlainRun(w, "", "", false);
    assert w + "" == w;
  }

  // ---------- words of plain and quoted pieces ----------

  datatype Piece = Plain(text: string) | Quoted(text: string)

  ghost predicate IsPiece(p: Piece) {
    '"' !in p.text && (p.Plain? ==> p.text != "" && forall i | 0 <= i < |p.text| :: !IsSpace(p.text[i]))
  }

  /** One or more pieces with nothing between them. */
  ghost predicate IsWord(w: seq<Piece>) { w != [] && forall i | 0 <= i < |w| :: IsPiece(w[i]) }

  function Spelled(w: seq<Piece>): string {
    if w == [] then "" else (if w[0].Plain? then w[0].text else Quote(w[0].text)) + Spelled(w[1..])
  }

  function Meant(w: seq<Piece>): string { if w == [] then "" else w[0].text + Meant(w[1..]) }

  lemma PieceIsRead(p: Piece, rest: string, cur: string, any: bool)
    requires IsPiece(p)
    ensures SplitFrom((if p.Plain? then p.text else Quote(p.text)) + rest, cur, false, any)
            == SplitFrom(rest, cur + p.text, false, true)
  {
    if p.Plain? {
      forall i | 0 <= i < |p.text| ensures p.text[i] != '"' { assert p.text[i] in p.text; }
      PlainRun(p.text, rest, cur, any);
    } else {
      var s := Quote(p.text) + rest;
      assert s[1..] == p.text + ("\"" + rest);
      InsideQuotes(p.text, "\"" + rest, cur);
      assert ("\"" + rest)[1..] == rest;
    }
  }

  lemma FirstPieceIsRead(w: seq<Piece>, rest: string, cur: string, any: bool)
    requires w != [] && IsPiece(w[0])
    ensures SplitFrom(Spelled(w) + rest, cur, false, any)
            == SplitFrom(Spelled(w[1..]) + rest, cur + w[0].text, false, true)
  {
    var first, more := if w[0].Plain? then w[0].text else Quote(w[0].text), Spelled(w[1..]);
    Collections.Regroup(first, more, rest);
    PieceIsRead(w[0], more + rest, cur, any);
  }

  lemma {:induction false} WordIsRead(w: seq<Piece>, rest: string, cur: string, any: bool)
    requires forall i | 0 <= i < |w| :: IsPiece(w[i])
    ensures SplitFrom(Spelled(w) + rest, cur, false, any) == SplitFrom(rest, cur + Meant(w), false, any || w != [])
    decreases |w|
  {
    if w == [] {
      assert "" + rest == rest && cur + "" == cur;
    } else {
      FirstPieceIsRead(w, rest, cur, any);
      WordIsRead(w[1..], rest, cur + w[0].text, true);
      Collections.Regroup(cur, w[0].text, Meant(w[1..]));
    }
  }

  lemma {:induction false} BlanksAreSkipped(blanks: string, rest: string)
    requires Blanks(blanks)
    ensures SplitFrom(blanks + rest, "", false, false) == SplitFrom(rest, "", false, false)
    decreases |blanks|
  {
    if blanks == "" {
      assert blanks + rest == rest;
    } else {
      assert (blanks + rest)[1..] == blanks[1..] + rest;
      BlanksAreSkipped(blanks[1..], rest);
    }
  }

  lemma WordAlone(w: seq<Piece>)
    requires IsWord(w)
    ensures Args(Spelled(w)) == [Meant(w)]
  {
    WordIsRead(w, "", "", false);
    assert Spelled(w) + "" == Spelled(w) && "" + Meant(w) == Meant(w);
  }

  lemma BlanksThen(cur: string, blanks: string, rest: string)
    requires Blanks(blanks) && blanks != ""
    ensures SplitFrom(blanks + rest, cur, false, true) == [cur] + Args(rest)
  {
    assert (blanks + rest)[1..] == blanks[1..] + rest;
    BlanksAreSkipped(blanks[1..], rest);
  }

  /** A word is one argument, its pieces joined without their quotes; blanks end it, however many. */
  lemma WordThenBlanks(w: seq<Piece>, blanks: string, rest: string)
    requires IsWord(w) && Blanks(blanks)
    ensures blanks != "" ==> Args(Spelled(w) + (blanks + rest)) == [Meant(w)] + Args(rest)
    ensures Args(Spelled(w)) == [Meant(w)]
    ensures Args(blanks + rest) == Args(rest)
  {
    BlanksAreSkipped(blanks, rest);
    WordAlone(w);
    if blanks != "" {
      WordIsRead(w, blanks + rest, "", false);
      assert "" + Meant(w) == Meant(w);
      BlanksThen(Meant(w), blanks, rest);
    }
  }

  /** Are we inside quotes after reading `s`? */
  predicate EndsQuoted(s: string, quoted: bool) {
    if s == "" then quoted else EndsQuoted(s[1..], if s[0] == '"' then !quoted else quoted)
  }

  lemma {:induction false} ClosingQuoteFrom(rest: string, cur: string, quoted: bool, any: bool)
    requires EndsQuoted(rest, quoted) && (quoted ==> any)
    ensures SplitFrom(rest + "\"", cur, quoted, any) == SplitFrom(rest, cur, quoted, any)
    decreases |rest|
  {
    if rest == "" {
      assert rest + "\"" == "\"" && "\""[1..] == "";
    } else {
      assert (rest + "\"")[1..] == rest[1..] + "\"";
      if rest[0] == '"' {
        ClosingQuoteFrom(rest[1..], cur, !quoted, true);
      } else if IsSpace(rest[0]) && !quoted {
        if any { ClosingQuoteFrom(rest[1..], "", quoted, false); }
          else { ClosingQuoteFrom(rest[1..], cur, quoted, false); }
      } else {
        ClosingQuoteFrom(rest[1..], cur + [rest[0]], quoted, true);
      }
    }
  }

  /** An unbalanced line splits as if its open quote were closed at the end. */
  lemma OpenQuoteClosesAtEnd(line: string)
    requires EndsQuoted(line, false)
    ensures Args(line + "\"") == Args(line)
  {
    ClosingQuoteFrom(line, "", false, false);
  }
}
