/** Masked excerpts: secrets shortened to four characters and an ellipsis, then a window
    (tools/secret-scan/src/main.rs:130-237, tools/log-triage/src/main.rs:247-296). */
module Masking {
  import Collections
  import opened ByteOffsets

  /** Start (included) and end (excluded) of one secret, as character positions or as byte offsets. */
  datatype Span = Span(s: nat, e: nat)

  const EXCERPT_MAX_CHARS := 200
  const ELLIPSIS := "\U{2026}"
  const KEEP := 4
  const LEAD := 60

  ghost predicate InLine(spans: seq<Span>, n: nat) {
    forall i | 0 <= i < |spans| :: spans[i].s <= spans[i].e <= n
  }

  // ---------- groups of overlapping or touching spans ----------

  /** The gaps between characters are the even points, the characters the odd ones, so that spans
      which only touch share a point. */
  ghost predicate Covered(spans: seq<Span>, k: int) {
    exists i :: 0 <= i < |spans| && 2 * spans[i].s <= k <= 2 * spans[i].e
  }

  ghost predicate Separated(m: seq<Span>) {
    && (forall i | 0 <= i < |m| :: m[i].s <= m[i].e)
    && (forall i, j | 0 <= i < j < |m| :: m[i].e < m[j].s)
  }

  ghost predicate SameCover(a: seq<Span>, b: seq<Span>) {
    forall k: int :: Covered(a, k) <==> Covered(b, k)
  }

  /** `m` lists the maximal groups of overlapping or touching spans, left to right. */
  ghost predicate IsGroups(m: seq<Span>, spans: seq<Span>) {
    Separated(m) && SameCover(m, spans)
  }

  lemma FirstPoint(m: seq<Span>, k: int)
    requires Separated(m) && Covered(m, k)
    ensures m != [] && 2 * m[0].s <= k
  {
  }

  lemma AfterFirst(m: seq<Span>)
    requires Separated(m) && m != []
    ensures !Covered(m, 2 * m[0].e + 1)
    ensures Separated(m[1..])
    ensures forall k: int :: Covered(m[1..], k) <==> Covered(m, k) && k > 2 * m[0].e
  {
    var t := m[1..];
    forall k: int ensures Covered(t, k) <==> Covered(m, k) && k > 2 * m[0].e {
      if i :| 0 <= i < |t| && 2 * t[i].s <= k <= 2 * t[i].e { assert m[i + 1] == t[i]; }
      if i :| 0 <= i < |m| && 2 * m[i].s <= k <= 2 * m[i].e && k > 2 * m[0].e { assert t[i - 1] == m[i]; }
    }
  }

  lemma HeadsAgree(a: seq<Span>, b: seq<Span>)
    requires Separated(a) && Separated(b) && SameCover(a, b) && a != []
    ensures b != [] && a[0].s == b[0].s && b[0].e <= a[0].e
  {
    assert Covered(a, 2 * a[0].s);
    FirstPoint(b, 2 * a[0].s);
    assert Covered(b, 2 * b[0].s);
    FirstPoint(a, 2 * b[0].s);
    AfterFirst(a);
    assert !Covered(b, 2 * a[0].e + 1);
  }

  /** The groups are determined by the points covered. */
  lemma {:induction false} GroupsAreUnique(a: seq<Span>, b: seq<Span>)
    requires Separated(a) && Separated(b) && SameCover(a, b)
    ensures a == b
  {
    if a == [] {
      if b != [] { HeadsAgree(b, a); }
    } else {
      HeadsAgree(a, b);
      HeadsAgree(b, a);
      AfterFirst(a);
      AfterFirst(b);
      GroupsAreUnique(a[1..], b[1..]);
      assert a == [a[0]] + a[1..] && b == [b[0]] + b[1..];
    }
  }

  /** Neither the order nor repetitions of the spans matter. */
  lemma GroupsDependOnSet(m: seq<Span>, spans: seq<Span>, n: seq<Span>, spans': seq<Span>)
    requires IsGroups(m, spans) && IsGroups(n, spans')
    requires forall x :: x in spans <==> x in spans'
    ensures m == n
  {
    forall k: int ensures Covered(spans, k) <==> Covered(spans', k) {
      if i :| 0 <= i < |spans| && 2 * spans[i].s <= k <= 2 * spans[i].e { assert spans[i] in spans'; }
      if i :| 0 <= i < |spans'| && 2 * spans'[i].s <= k <= 2 * spans'[i].e { assert spans'[i] in spans; }
    }
    GroupsAreUnique(m, n);
  }

  // ---------- sorting and merging ----------

  ghost predicate ByStart(s: seq<Span>) {
    forall i, j | 0 <= i < j < |s| :: s[i].s <= s[j].s
  }

  predicate SpanLeq(a: Span, b: Span) { a.s < b.s || (a.s == b.s && a.e <= b.e) }

  function InsertSpan(x: Span, s: seq<Span>): seq<Span> {
    if s == [] then [x] else if SpanLeq(x, s[0]) then [x] + s else [s[0]] + InsertSpan(x, s[1..])
  }

  /** `spans.sort()`. */
  function SortSpans(s: seq<Span>): seq<Span> {
    if s == [] then [] else InsertSpan(s[0], SortSpans(s[1..]))
  }

  lemma {:induction false} InsertSpanSorts(x: Span, s: seq<Span>)
    requires ByStart(s)
    ensures ByStart(InsertSpan(x, s))
    ensures forall y :: y in InsertSpan(x, s) <==> y == x || y in s
  {
    if s != [] {
      assert s == [s[0]] + s[1..];
      if !SpanLeq(x, s[0]) {
        InsertSpanSorts(x, s[1..]);
        var rest := InsertSpan(x, s[1..]);
        forall j | 0 <= j < |rest| ensures s[0].s <= rest[j].s { assert rest[j] in rest; }
      }
    }
  }

  lemma {:induction false} SortSpansSorts(s: seq<Span>)
    ensures ByStart(SortSpans(s))
    ensures forall y :: y in SortSpans(s) <==> y in s
  {
    if s != [] {
      assert s == [s[0]] + s[1..];
      SortSpansSorts(s[1..]);
      InsertSpanSorts(s[0], SortSpans(s[1..]));
    }
  }

  lemma CoverGrows(spans: seq<Span>, x: Span)
    ensures forall k: int :: Covered(spans + [x], k) <==> Covered(spans, k) || 2 * x.s <= k <= 2 * x.e
  {
    var t := spans + [x];
    forall k: int ensures Covered(t, k) <==> Covered(spans, k) || 2 * x.s <= k <= 2 * x.e {
      if i :| 0 <= i < |spans| && 2 * spans[i].s <= k <= 2 * spans[i].e { assert t[i] == spans[i]; }
      if 2 * x.s <= k <= 2 * x.e { assert t[|spans|] == x; }
    }
  }

  /** Widening the last group by a span that starts within it. */
  lemma GrowLast(m: seq<Span>, x: Span)
    requires Separated(m) && m != [] && m[|m| - 1].s <= x.s <= x.e && x.s <= m[|m| - 1].e
    ensures var last := m[|m| - 1];
            var g := m[..|m| - 1] + [Span(last.s, if last.e < x.e then x.e else last.e)];
            Separated(g) && forall k: int :: Covered(g, k) <==> Covered(m, k) || 2 * x.s <= k <= 2 * x.e
  {
    var init, last := m[..|m| - 1], m[|m| - 1];
    assert m == init + [last];
    CoverGrows(init, last);
    CoverGrows(init, Span(last.s, if last.e < x.e then x.e else last.e));
  }

  lemma OpenGroup(m: seq<Span>, x: Span)
    requires Separated(m) && x.s <= x.e && (m != [] ==> m[|m| - 1].e < x.s)
    ensures Separated(m + [x])
  {
    var t := m + [x];
    forall i, j | 0 <= i < j < |t| ensures t[i].e < t[j].s {
      if j == |m| && i < |m| - 1 { assert m[i].e < m[|m| - 1].s; }
    }
  }

  ghost predicate CoversPrefix(m: seq<Span>, sorted: seq<Span>, i: nat)
    requires i <= |sorted|
  {
    && Separated(m) && SameCover(m, sorted[..i])
    && (m != [] && i < |sorted| ==> m[|m| - 1].s <= sorted[i].s)
  }

  lemma WidenStep(m: seq<Span>, sorted: seq<Span>, i: nat)
    requires i < |sorted| && ByStart(sorted) && CoversPrefix(m, sorted, i) && sorted[i].s <= sorted[i].e
    requires m != [] && sorted[i].s <= m[|m| - 1].e
    ensures var x, last := sorted[i], m[|m| - 1];
            CoversPrefix(m[..|m| - 1] + [Span(last.s, if last.e < x.e then x.e else last.e)], sorted, i + 1)
  {
    assert sorted[..i + 1] == sorted[..i] + [sorted[i]];
    CoverGrows(sorted[..i], sorted[i]);
    GrowLast(m, sorted[i]);
  }

  lemma OpenStep(m: seq<Span>, sorted: seq<Span>, i: nat)
    requires i < |sorted| && ByStart(sorted) && CoversPrefix(m, sorted, i) && sorted[i].s <= sorted[i].e
    requires m == [] || sorted[i].s > m[|m| - 1].e
    ensures CoversPrefix(m + [sorted[i]], sorted, i + 1)
  {
    assert sorted[..i + 1] == sorted[..i] + [sorted[i]];
    CoverGrows(sorted[..i], sorted[i]);
    CoverGrows(m, sorted[i]);
    OpenGroup(m, sorted[i]);
  }

  /** Sort, then fold each span into the last group or open a new one. */
  method Merge(spans: seq<Span>) returns (merged: seq<Span>)
    requires forall i | 0 <= i < |spans| :: spans[i].s <= spans[i].e
    ensures IsGroups(merged, spans)
  {
    var sorted := SortSpans(spans);
    SortSpansSorts(spans);
    assert forall i | 0 <= i < |sorted| :: sorted[i] in spans;
    merged := [];
    for i := 0 to |sorted|
      invariant CoversPrefix(merged, sorted, i)
    {
      var x := sorted[i];
      if merged != [] && x.s <= merged[|merged| - 1].e {
        WidenStep(merged, sorted, i);
        var last := merged[|merged| - 1];
        merged := merged[..|merged| - 1] + [Span(last.s, if last.e < x.e then x.e else last.e)];
      } else {
        OpenStep(merged, sorted, i);
        merged := merged + [x];
      }
    }
    assert sorted[..|sorted|] == sorted;
    CoverOfSet(sorted, spans);
  }

  lemma CoverOfSet(a: seq<Span>, b: seq<Span>)
    requires forall x :: x in a <==> x in b
    ensures SameCover(a, b)
  {
    forall k: int ensures Covered(a, k) <==> Covered(b, k) {
      if i :| 0 <= i < |a| && 2 * a[i].s <= k <= 2 * a[i].e { assert a[i] in b; }
      if i :| 0 <= i < |b| && 2 * b[i].s <= k <= 2 * b[i].e { assert b[i] in a; }
    }
  }

  // ---------- masked text ----------

  /** The first four characters of a secret, then the ellipsis. */
  function Mask(secret: string): (r: string)
    ensures |r| <= KEEP + 1
  {
    (if |secret| <= KEEP then secret else secret[..KEEP]) + ELLIPSIS
  }

  ghost predicate Fits(line: string, m: seq<Span>, cursor: nat) {
    Separated(m) && InLine(m, |line|) && cursor <= |line| && (m != [] ==> cursor <= m[0].s)
  }

  lemma FitsRest(line: string, m: seq<Span>, cursor: nat)
    requires Fits(line, m, cursor) && m != []
    ensures Fits(line, m[1..], m[0].e)
  {
  }

  /** The line from `cursor` on with every group replaced by its first characters and an ellipsis. */
  function MaskedFrom(line: string, m: seq<Span>, cursor: nat): string
    requires Fits(line, m, cursor)
  {
    if m == [] then line[cursor..]
    else
      FitsRest(line, m, cursor);
      line[cursor..m[0].s] + (Mask(line[m[0].s..m[0].e]) + MaskedFrom(line, m[1..], m[0].e))
  }

  function FirstMark(m: seq<Span>): nat { if m == [] then 0 else m[0].s }

  function WindowStart(total: nat, mark: nat): nat
    requires total > EXCERPT_MAX_CHARS
  {
    var start := if mark > LEAD then mark - LEAD else 0;
    if start + EXCERPT_MAX_CHARS > total then total - EXCERPT_MAX_CHARS else start
  }

  /** At most 200 characters of `text` around `mark`, with an ellipsis on each side that was cut. */
  function Window(text: string, mark: nat): string {
    if |text| <= EXCERPT_MAX_CHARS then text
    else
      var start := WindowStart(|text|, mark);
      (if start > 0 then ELLIPSIS else "")
      + text[start..start + EXCERPT_MAX_CHARS]
      + (if start + EXCERPT_MAX_CHARS < |text| then ELLIPSIS else "")
  }

  lemma MaskStep(line: string, m: seq<Span>, i: nat, cursor: nat)
    requires i < |m| && Fits(line, m[i..], cursor)
    ensures cursor <= m[i].s <= m[i].e <= |line| && Fits(line, m[i + 1..], m[i].e)
    ensures MaskedFrom(line, m[i..], cursor)
            == line[cursor..m[i].s] + (Mask(line[m[i].s..m[i].e]) + MaskedFrom(line, m[i + 1..], m[i].e))
  {
    FitsRest(line, m[i..], cursor);
    assert m[i..][1..] == m[i + 1..];
  }

  // ---------- what a masked line shows ----------

  /** The first four characters of a secret, or all of a shorter one. */
  function Shown(line: string, g: Span): string
    requires g.s <= g.e <= |line|
  {
    line[g.s..if g.s + 4 <= g.e then g.s + 4 else g.e]
  }

  lemma MaskShows(line: string, g: Span)
    requires g.s <= g.e <= |line|
    ensures Mask(line[g.s..g.e]) == Shown(line, g) + "\U{2026}"
  {
    var secret := line[g.s..g.e];
    if |secret| > 4 { assert secret[..4] == line[g.s..g.s + 4]; }
  }

  /** Without secrets the line is shown as it is. */
  lemma NothingIsMasked(line: string)
    ensures MaskedFrom(line, [], 0) == line
  {
  }

  lemma FitsBefore(line: string, m: seq<Span>, g: Span, cursor: nat)
    requires Fits(line, m + [g], cursor)
    ensures g.s <= g.e <= |line| && Fits(line[..g.s], m, cursor)
  {
    var all := m + [g];
    assert all[|m|] == g && forall i | 0 <= i < |m| :: all[i] == m[i];
  }

  /** What follows the first group is `rest`. */
  lemma Unfolds(line: string, m: seq<Span>, t: seq<Span>, cursor: nat, rest: string)
    requires m != [] && t == m[1..] && Fits(line, m, cursor) && Fits(line, t, m[0].e)
    requires rest == MaskedFrom(line, t, m[0].e)
    ensures MaskedFrom(line, m, cursor) == line[cursor..m[0].s] + (Mask(line[m[0].s..m[0].e]) + rest)
  {
  }

  /** The last group shows its first characters and an ellipsis, and the rest of the line follows. */
  ghost predicate EndsMasked(line: string, m: seq<Span>, g: Span, cursor: nat) {
    && Fits(line, m + [g], cursor) && g.s <= g.e <= |line| && Fits(line[..g.s], m, cursor)
    && MaskedFrom(line, m + [g], cursor)
       == MaskedFrom(line[..g.s], m, cursor) + (Shown(line, g) + "\U{2026}" + line[g.e..])
  }

  lemma OneIsMasked(line: string, g: Span, cursor: nat)
    requires Fits(line, [g], cursor)
    ensures EndsMasked(line, [], g, cursor)
  {
    var all := [g];
    assert all[0] == g;
    assert [] + all == all;
    MaskShows(line, g);
    FitsRest(line, all, cursor);
    Unfolds(line, all, [], cursor, line[g.e..]);
    assert line[..g.s][cursor..] == line[cursor..g.s];
  }

  lemma PairRegroups(front: string, mask: string, rest: string, tail: string)
    ensures front + (mask + (rest + tail)) == front + (mask + rest) + tail
  {
    Collections.Regroup(mask, rest, tail);
    Collections.Regroup(front, mask + rest, tail);
  }

  /** A line and its first `n` characters agree on what lies before `n`. */
  lemma SameStart(line: string, n: nat, g: Span, cursor: nat)
    requires cursor <= g.s <= g.e <= n <= |line|
    ensures line[..n][cursor..g.s] == line[cursor..g.s] && line[..n][g.s..g.e] == line[g.s..g.e]
  {
  }

  lemma GroupBefore(line: string, m: seq<Span>, rest: seq<Span>, g: Span, cursor: nat)
    requires m != [] && rest == m[1..] && Fits(line, m + [g], cursor) && EndsMasked(line, rest, g, m[0].e)
    ensures EndsMasked(line, m, g, cursor)
  {
    FitsBefore(line, m, g, cursor);
    var all, tail := m + [g], Shown(line, g) + "\U{2026}" + line[g.e..];
    assert all[0] == m[0] && all[1..] == rest + [g];
    var shown := MaskedFrom(line[..g.s], rest, m[0].e);
    Unfolds(line, all, rest + [g], cursor, shown + tail);
    Unfolds(line[..g.s], m, rest, cursor, shown);
    SameStart(line, g.s, m[0], cursor);
    PairRegroups(line[cursor..m[0].s], Mask(line[m[0].s..m[0].e]), shown, tail);
  }

  lemma {:induction false} EachEndsMasked(line: string, m: seq<Span>, g: Span, cursor: nat)
    requires Fits(line, m + [g], cursor)
    ensures EndsMasked(line, m, g, cursor)
  {
    if m == [] {
      assert m + [g] == [g];
      OneIsMasked(line, g, cursor);
    } else {
      FitsRest(line, m + [g], cursor);
      assert (m + [g])[1..] == m[1..] + [g] && (m + [g])[0] == m[0];
      EachEndsMasked(line, m[1..], g, m[0].e);
      GroupBefore(line, m, m[1..], g, cursor);
    }
  }

  /** One more secret at the end: everything before it is shown as without it, then its first four
      characters and an ellipsis, then the rest of the line. */
  lemma OneMoreIsMasked(line: string, m: seq<Span>, g: Span)
    requires Fits(line, m + [g], 0)
    ensures g.s <= g.e <= |line| && Fits(line[..g.s], m, 0)
    ensures MaskedFrom(line, m + [g], 0)
            == MaskedFrom(line[..g.s], m, 0) + (Shown(line, g) + "\U{2026}" + line[g.e..])
  {
    EachEndsMasked(line, m, g, 0);
  }

  // ---------- the same spans as byte offsets and as characters ----------

  ghost predicate OnBoundaries(line: string, spans: seq<Span>) {
    forall i | 0 <= i < |spans| ::
        spans[i].s <= spans[i].e && OnBoundary(line, spans[i].s) && OnBoundary(line, spans[i].e)
  }

  ghost function CharSpans(line: string, spans: seq<Span>): (r: seq<Span>)
    requires OnBoundaries(line, spans)
    ensures |r| == |spans|
            && forall i | 0 <= i < |r| :: r[i] == Span(CharAt(line, spans[i].s), CharAt(line, spans[i].e))
  {
    seq(|spans|, i requires 0 <= i < |spans| => Span(CharAt(line, spans[i].s), CharAt(line, spans[i].e)))
  }

  /** The point among byte offsets for a point among characters. */
  function BytePoint(line: string, k: int): int
    requires 0 <= k <= 2 * |line|
  {
    if k % 2 == 0 then 2 * ByteAt(line, k / 2) else 2 * ByteAt(line, k / 2) + 1
  }

  lemma PointInSpan(line: string, x: Span, k: int)
    requires x.s <= x.e && OnBoundary(line, x.s) && OnBoundary(line, x.e) && 0 <= k <= 2 * |line|
    ensures 2 * CharAt(line, x.s) <= k <= 2 * CharAt(line, x.e) <==> 2 * x.s <= BytePoint(line, k) <= 2 * x.e
  {
    var i := k / 2;
    CharAtByteAt(line, i);
    SameOrder(line, x.s, ByteAt(line, i));
    SameOrder(line, ByteAt(line, i), x.e);
    if k % 2 == 1 { OffsetsGrow(line, i, i + 1); }
  }

  lemma SamePoints(line: string, spans: seq<Span>, k: int)
    requires OnBoundaries(line, spans)
    ensures Covered(CharSpans(line, spans), k) ==> 0 <= k <= 2 * |line|
    ensures 0 <= k <= 2 * |line| ==> (Covered(CharSpans(line, spans), k) <==> Covered(spans, BytePoint(line, k)))
  {
    var cs := CharSpans(line, spans);
    if 0 <= k <= 2 * |line| {
      forall i | 0 <= i < |spans|
        ensures 2 * cs[i].s <= k <= 2 * cs[i].e <==> 2 * spans[i].s <= BytePoint(line, k) <= 2 * spans[i].e
      {
        PointInSpan(line, spans[i], k);
      }
    }
  }

  /** A group starts where one of its spans starts and ends where one ends. */
  lemma GroupEnds(m: seq<Span>, spans: seq<Span>, i: nat)
    requires IsGroups(m, spans) && i < |m|
    ensures exists j :: 0 <= j < |spans| && spans[j].s == m[i].s
    ensures exists j :: 0 <= j < |spans| && spans[j].e == m[i].e
  {
    assert Covered(m, 2 * m[i].s) && Covered(m, 2 * m[i].e);
    assert !Covered(m, 2 * m[i].s - 1) && !Covered(m, 2 * m[i].e + 1);
    var a :| 0 <= a < |spans| && 2 * spans[a].s <= 2 * m[i].s <= 2 * spans[a].e;
    var b :| 0 <= b < |spans| && 2 * spans[b].s <= 2 * m[i].e <= 2 * spans[b].e;
    assert !Covered(spans, 2 * m[i].s - 1) && !Covered(spans, 2 * m[i].e + 1);
    assert spans[a].s == m[i].s && spans[b].e == m[i].e;
  }

  /** The groups of byte spans are, as characters, the groups of the character spans. */
  lemma GroupsInChars(line: string, m: seq<Span>, spans: seq<Span>)
    requires IsGroups(m, spans) && OnBoundaries(line, spans)
    ensures OnBoundaries(line, m) && IsGroups(CharSpans(line, m), CharSpans(line, spans))
  {
    forall i | 0 <= i < |m| ensures m[i].s <= m[i].e && OnBoundary(line, m[i].s) && OnBoundary(line, m[i].e) {
      GroupEnds(m, spans, i);
    }
    SeparatedInChars(line, m);
    forall k: int ensures Covered(CharSpans(line, m), k) <==> Covered(CharSpans(line, spans), k) {
      SamePoints(line, m, k);
      SamePoints(line, spans, k);
    }
  }

  lemma SeparatedInChars(line: string, m: seq<Span>)
    requires Separated(m) && OnBoundaries(line, m)
    ensures Separated(CharSpans(line, m)) && InLine(CharSpans(line, m), |line|)
  {
    forall i | 0 <= i < |m| ensures CharAt(line, m[i].s) <= CharAt(line, m[i].e) { SameOrder(line, m[i].s, m[i].e); }
    forall i, j | 0 <= i < j < |m|
      ensures CharAt(line, m[i].e) < CharAt(line, m[j].s) { SameOrder(line, m[i].e, m[j].s); }
  }

  /** The groups before the i-th are written, and `cursor` is where the last of them ended. */
  ghost predicate Written(line: string, m: seq<Span>, i: nat, cursor: nat, out: string)
    requires Separated(m) && OnBoundaries(line, m) && i <= |m|
  {
    var cm := CharSpans(line, m);
    && OnBoundary(line, cursor) && Fits(line, cm[i..], CharAt(line, cursor)) && Fits(line, cm, 0)
    && out + MaskedFrom(line, cm[i..], CharAt(line, cursor)) == MaskedFrom(line, cm, 0)
  }

  lemma NothingWritten(line: string, m: seq<Span>)
    requires Separated(m) && OnBoundaries(line, m)
    ensures Written(line, m, 0, 0, "")
  {
    SeparatedInChars(line, m);
    CharAtByteAt(line, 0);
    assert CharSpans(line, m)[0..] == CharSpans(line, m);
  }

  lemma OneWritten(line: string, m: seq<Span>, i: nat, cursor: nat, out: string)
    requires Separated(m) && OnBoundaries(line, m) && i < |m| && Written(line, m, i, cursor, out)
    ensures cursor <= m[i].s <= m[i].e
    ensures |Slice(line, cursor, m[i].s)| == CharSpans(line, m)[i].s - CharAt(line, cursor)
    ensures Written(line, m, i + 1, m[i].e, out + Slice(line, cursor, m[i].s) + Mask(Slice(line, m[i].s, m[i].e)))
  {
    SameOrder(line, cursor, m[i].s);
    MaskStep(line, CharSpans(line, m), i, CharAt(line, cursor));
    var gap, mask := Slice(line, cursor, m[i].s), Mask(Slice(line, m[i].s, m[i].e));
    var rest := MaskedFrom(line, CharSpans(line, m)[i + 1..], CharAt(line, m[i].e));
    Collections.Regroup(out + gap, mask, rest);
    Collections.Regroup(out, gap, mask + rest);
  }

  lemma AllWritten(line: string, m: seq<Span>, cursor: nat, out: string)
    requires Separated(m) && OnBoundaries(line, m) && Written(line, m, |m|, cursor, out)
    ensures cursor <= Length(line) && Fits(line, CharSpans(line, m), 0)
    ensures out + Slice(line, cursor, Length(line)) == MaskedFrom(line, CharSpans(line, m), 0)
  {
    SliceToEnd(line, cursor);
    assert CharSpans(line, m)[|m|..] == [];
  }

  /** Writes the masked text from groups of byte spans, noting at which character the first mask begins. */
  method MaskGroups(line: string, m: seq<Span>) returns (out: string, firstMark: nat)
    requires Separated(m) && OnBoundaries(line, m)
    ensures Fits(line, CharSpans(line, m), 0)
    ensures out == MaskedFrom(line, CharSpans(line, m), 0)
    ensures firstMark == FirstMark(CharSpans(line, m))
  {
    NothingWritten(line, m);
    CharAtByteAt(line, 0);
    var cursor: nat, marked := 0, false;
    out, firstMark := "", 0;
    for i := 0 to |m|
      invariant Written(line, m, i, cursor, out)
      invariant marked <==> i > 0
      invariant if i > 0 then firstMark == CharSpans(line, m)[0].s else out == "" && cursor == 0 && firstMark == 0
    {
      OneWritten(line, m, i, cursor, out);
      out := out + Slice(line, cursor, m[i].s);
      if !marked {
        firstMark, marked := |out|, true;
      }
      out := out + Mask(Slice(line, m[i].s, m[i].e));
      cursor := m[i].e;
    }
    AllWritten(line, m, cursor, out);
    out := out + Slice(line, cursor, Length(line));
  }

  /** The window around the first mark of the line with its maximal groups masked, from byte spans. By
      `GroupsDependOnSet` there is one list of groups, so this determines the excerpt. */
  method MaskedExcerpt(line: string, spans: seq<Span>) returns (r: string)
    requires OnBoundaries(line, spans)
    ensures exists groups :: IsGroups(groups, CharSpans(line, spans)) && Fits(line, groups, 0)
                             && r == Window(MaskedFrom(line, groups, 0), FirstMark(groups))
  {
    var merged := Merge(spans);
    GroupsInChars(line, merged, spans);
    var out, firstMark := MaskGroups(line, merged);
    r := Window(out, firstMark);
  }

  lemma MiddleOf(a: string, b: string, c: string)
    ensures (a + (b + c))[|a|..|a| + |b|] == b
  {
  }

  /** The excerpt has at most 202 characters; it holds a contiguous window of the masked text that
      contains the first mark with its ellipsis. */
  lemma WindowShowsFirstMark(line: string, m: seq<Span>) returns (start: nat)
    requires Fits(line, m, 0)
    ensures var text, r := MaskedFrom(line, m, 0), Window(MaskedFrom(line, m, 0), FirstMark(m));
            && |r| <= 202
            && (|text| <= 200 ==> r == text)
            && (|text| > 200 ==>
                  && start + 200 <= |text|
                  && r == (if start > 0 then "\U{2026}" else "") + text[start..start + 200]
                          + (if start + 200 < |text| then "\U{2026}" else "")
                  && (m == [] ==> start == 0)
                  && (m != [] ==>
                        var mask := Shown(line, m[0]) + "\U{2026}";
                        && (start == m[0].s - 60 || (start == 0 && m[0].s <= 60)
                            || (start == |text| - 200 && m[0].s - 60 > start))
                        && m[0].s + |mask| <= start + 200
                        && text[m[0].s..m[0].s + |mask|] == mask))
  {
    var text := MaskedFrom(line, m, 0);
    start := if |text| > EXCERPT_MAX_CHARS then WindowStart(|text|, FirstMark(m)) else 0;
    if m != [] {
      FitsRest(line, m, 0);
      var mask, rest := Mask(line[m[0].s..m[0].e]), MaskedFrom(line, m[1..], m[0].e);
      MaskShows(line, m[0]);
      assert text == line[..m[0].s] + (mask + rest);
      MiddleOf(line[..m[0].s], mask, rest);
    }
  }

  // ---------- what the excerpt reveals ----------

  /** Position `p` lies in a group past the four characters that stay visible. */
  ghost predicate Hidden(m: seq<Span>, p: nat) {
    exists i :: 0 <= i < |m| && m[i].s + KEEP <= p < m[i].e
  }

  lemma HiddenRest(m: seq<Span>, p: nat)
    requires m != [] && m[0].e <= p
    ensures Hidden(m, p) <==> Hidden(m[1..], p)
  {
    assert forall i | 0 <= i < |m| - 1 :: m[1..][i] == m[i + 1];
    if i :| 0 <= i < |m| && m[i].s + KEEP <= p < m[i].e { assert i > 0 ==> m[1..][i - 1] == m[i]; }
  }

  lemma FirstVisible(m: seq<Span>, p: nat)
    requires Separated(m) && m != [] && p < m[0].e && p < m[0].s + KEEP
    ensures !Hidden(m, p)
  {
  }

  lemma SameMask(a: string, b: string)
    requires |a| == |b| && forall p: nat | p < |a| && p < KEEP :: a[p] == b[p]
    ensures Mask(a) == Mask(b)
  {
    if |a| <= KEEP {
      assert a == b;
    } else {
      assert a[..KEEP] == b[..KEEP];
    }
  }

  lemma {:induction false} MaskHidesTails(a: string, b: string, m: seq<Span>, cursor: nat)
    requires |a| == |b| && Fits(a, m, cursor) && Fits(b, m, cursor)
    requires forall p: nat | cursor <= p < |a| && !Hidden(m, p) :: a[p] == b[p]
    ensures MaskedFrom(a, m, cursor) == MaskedFrom(b, m, cursor)
    decreases |m|
  {
    if m == [] {
      assert a[cursor..] == b[cursor..];
    } else {
      FitsRest(a, m, cursor);
      FitsRest(b, m, cursor);
      var s, e := m[0].s, m[0].e;
      forall p: nat | cursor <= p < e && p < s + KEEP ensures a[p] == b[p] { FirstVisible(m, p); }
      assert a[cursor..s] == b[cursor..s];
      SameMask(a[s..e], b[s..e]);
      forall p: nat | e <= p < |a| && !Hidden(m[1..], p) ensures a[p] == b[p] { HiddenRest(m, p); }
      MaskHidesTails(a, b, m[1..], e);
    }
  }

  /** Lines that differ only in hidden characters have the same excerpt: it carries no information
      about a secret past its group's first four characters, except its length being cut. */
  lemma ExcerptHidesSecrets(a: string, b: string, m: seq<Span>)
    requires |a| == |b| && Fits(a, m, 0) && Fits(b, m, 0)
    requires forall p: nat | p < |a| && !Hidden(m, p) :: a[p] == b[p]
    ensures Window(MaskedFrom(a, m, 0), FirstMark(m)) == Window(MaskedFrom(b, m, 0), FirstMark(m))
  {
    MaskHidesTails(a, b, m, 0);
  }

  // ---------- entropy tokens ----------

  const ENTROPY_MIN_LEN := 20

  predicate IsTokenByte(c: char) {
    'a' <= c <= 'z' || 'A' <= c <= 'Z' || '0' <= c <= '9' || c == '+' || c == '/' || c == '=' || c == '_' || c == '-'
  }

  predicate TokenAt(line: string, i: int) { 0 <= i < |line| && IsTokenByte(line[i]) }

  /** A maximal run of token characters. */
  ghost predicate IsRun(line: string, r: Span) {
    && r.s < r.e
    && (forall i | r.s <= i < r.e :: TokenAt(line, i))
    && !TokenAt(line, r.s - 1) && !TokenAt(line, r.e)
  }

  predicate Overlap(a: Span, b: Span) { a.s < b.e && b.s < a.e }

  predicate OverlapsAny(hits: seq<Span>, run: Span) { exists h | h in hits :: Overlap(h, run) }

  /** A maximal run that is long, of high entropy and clear of every regex hit. */
  ghost predicate Reported(line: string, hits: seq<Span>, high: Span -> bool, r: Span) {
    && IsRun(line, r) && r.e - r.s >= ENTROPY_MIN_LEN && high(r)
    && !OverlapsAny(hits, r)
  }

  ghost predicate IsTokenChar(c: char) {
    'a' <= c <= 'z' || 'A' <= c <= 'Z' || '0' <= c <= '9' || c in "+/=_-"
  }

  /** Twenty or more token characters with none before and none after. */
  ghost predicate IsToken(line: string, r: Span) {
    && r.e <= |line| && r.s + 20 <= r.e
    && (forall i | r.s <= i < r.e :: IsTokenChar(line[i]))
    && (r.s == 0 || !IsTokenChar(line[r.s - 1])) && (r.e == |line| || !IsTokenChar(line[r.e]))
  }

  lemma TokenCharIs(c: char)
    ensures IsTokenByte(c) <==> IsTokenChar(c)
  {
    var marks := "+/=_-";
    assert c in marks <==> c == marks[0] || c == marks[1] || c == marks[2] || c == marks[3] || c == marks[4];
  }

  lemma LongRunIsToken(line: string, r: Span)
    ensures IsRun(line, r) && r.s + ENTROPY_MIN_LEN <= r.e <==> IsToken(line, r)
  {
    forall c: char ensures IsTokenByte(c) <==> IsTokenChar(c) { TokenCharIs(c); }
    if IsRun(line, r) && r.s + ENTROPY_MIN_LEN <= r.e {
      assert TokenAt(line, r.e - 1);
      assert forall i | r.s <= i < r.e :: TokenAt(line, i) ==> IsTokenChar(line[i]);
    }
  }

  /** What is reported: the tokens of high entropy that end before or begin after every regex hit. */
  lemma ReportedMeans(line: string, hits: seq<Span>, high: Span -> bool, r: Span)
    ensures Reported(line, hits, high, r)
            <==> IsToken(line, r) && high(r) && forall h | h in hits :: h.e <= r.s || r.e <= h.s
  {
    LongRunIsToken(line, r);
    if OverlapsAny(hits, r) {
      var h :| h in hits && Overlap(h, r);
    } else {
      forall h | h in hits ensures h.e <= r.s || r.e <= h.s { assert !Overlap(h, r); }
    }
  }

  ghost predicate ReportedUpTo(line: string, hits: seq<Span>, high: Span -> bool, tail: seq<Span>, i: nat) {
    && (forall j, k | 0 <= j < k < |tail| :: tail[j].e < tail[k].s)
    && (forall r :: r in tail <==> Reported(line, hits, high, r) && r.e <= i)
  }

  /** Reading past a character that is no token changes nothing. */
  lemma NoRunEnds(line: string, hits: seq<Span>, high: Span -> bool, tail: seq<Span>, i: nat)
    requires !TokenAt(line, i) && ReportedUpTo(line, hits, high, tail, i)
    ensures ReportedUpTo(line, hits, high, tail, i + 1)
  {
    forall r | IsRun(line, r) && r.e <= i + 1 ensures r.e <= i { assert TokenAt(line, r.e - 1); }
  }

  /** Reading one maximal run adds that run exactly when it is to be reported. */
  lemma OneRunEnds(line: string, hits: seq<Span>, high: Span -> bool, tail: seq<Span>, run: Span)
    requires IsRun(line, run) && ReportedUpTo(line, hits, high, tail, run.s)
    ensures ReportedUpTo(line, hits, high, if Reported(line, hits, high, run) then tail + [run] else tail, run.e)
    ensures forall h | h in tail :: !Overlap(h, run)
  {
    forall r | IsRun(line, r) && run.s < r.e <= run.e ensures r == run { RunsEqual(line, r, run); }
    forall r | r in tail ensures r.e < run.s {
      assert TokenAt(line, r.e - 1);
    }
  }

  lemma OverlapsOnlyHits(hits: seq<Span>, tail: seq<Span>, run: Span)
    requires forall h | h in tail :: !Overlap(h, run)
    ensures OverlapsAny(hits + tail, run) <==> OverlapsAny(hits, run)
  {
  }

  /** What the scan decides on for a run, looking at all hits so far, is whether it is to be reported. */
  lemma RunIsDecided(line: string, hits: seq<Span>, high: Span -> bool, tail: seq<Span>, run: Span)
    requires IsRun(line, run) && ReportedUpTo(line, hits, high, tail, run.s)
    ensures var found := run.e - run.s >= ENTROPY_MIN_LEN && !OverlapsAny(hits + tail, run) && high(run);
            ReportedUpTo(line, hits, high, if found then tail + [run] else tail, run.e)
  {
    OneRunEnds(line, hits, high, tail, run);
    OverlapsOnlyHits(hits, tail, run);
  }

  /** Adds a run that is long, of high entropy and clear of all hits so far. */
  method AddRun(line: string, ghost hits: seq<Span>, high: Span -> bool, all: seq<Span>, run: Span,
                ghost tail: seq<Span>)
    returns (next: seq<Span>, ghost tailNow: seq<Span>)
    requires all == hits + tail && IsRun(line, run) && ReportedUpTo(line, hits, high, tail, run.s)
    ensures next == hits + tailNow && ReportedUpTo(line, hits, high, tailNow, run.e)
  {
    RunIsDecided(line, hits, high, tail, run);
    next, tailNow := all, tail;
    if run.e - run.s >= ENTROPY_MIN_LEN && !OverlapsAny(all, run) && high(run) {
      next, tailNow := all + [run], tail + [run];
    }
  }

  /** The entropy half of `scan_line`: the regex hits are kept and followed, left to right, by
      exactly the runs to report. `high` is the entropy test. */
  method ScanTokens(line: string, hits: seq<Span>, high: Span -> bool) returns (all: seq<Span>)
    ensures hits <= all
    ensures ReportedUpTo(line, hits, high, all[|hits|..], |line|)
  {
    all := hits;
    ghost var tail: seq<Span> := [];
    var i := 0;
    while i < |line|
      invariant 0 <= i <= |line|
      invariant TokenAt(line, i) ==> !TokenAt(line, i - 1)
      invariant all == hits + tail
      invariant ReportedUpTo(line, hits, high, tail, i)
    {
      if !TokenAt(line, i) {
        NoRunEnds(line, hits, high, tail, i);
        i := i + 1;
      } else {
        var run := MaximalRun(line, i);
        all, tail := AddRun(line, hits, high, all, run, tail);
        i := run.e;
      }
    }
  }

  method MaximalRun(line: string, start: nat) returns (run: Span)
    requires TokenAt(line, start) && !TokenAt(line, start - 1)
    ensures run.s == start && run.e <= |line| && IsRun(line, run)
  {
    var i := start;
    while i < |line| && IsTokenByte(line[i])
      invariant start <= i <= |line|
      invariant forall k | start <= k < i :: TokenAt(line, k)
    {
      i := i + 1;
    }
    run := Span(start, i);
  }

  lemma RunsEqual(line: string, a: Span, b: Span)
    requires IsRun(line, a) && IsRun(line, b) && b.s < a.e <= b.e
    ensures a == b
  {
    assert a.s < b.s ==> TokenAt(line, b.s - 1);
    assert b.s < a.s ==> TokenAt(line, a.s - 1);
    assert a.e < b.e ==> TokenAt(line, a.e);
  }
}
