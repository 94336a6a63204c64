/** Byte offsets into a line of UTF-8 text, as Rust slices it, and the characters they stand at
    (tools/secret-scan/src/main.rs:202-216). */
module ByteOffsets {

  /** How many bytes UTF-8 takes for a character. */
  function Width(c: char): (w: nat)
    ensures 1 <= w <= 4
  {
    var n := c as int;
    if n < 0x80 then 1 else if n < 0x800 then 2 else if n < 0x10000 then 3 else 4
  }

  /** The offset of the i-th character. */
  function ByteAt(line: string, i: nat): nat
    requires i <= |line|
  {
    if i == 0 then 0 else ByteAt(line, i - 1) + Width(line[i - 1])
  }

  lemma {:induction false} OffsetsGrow(line: string, i: nat, j: nat)
    requires i < j <= |line|
    ensures ByteAt(line, i) < ByteAt(line, j)
    decreases j
  {
    if i < j - 1 { OffsetsGrow(line, i, j - 1); }
  }

  /** Slicing anywhere else panics. */
  ghost predicate OnBoundary(line: string, b: nat) {
    exists i :: 0 <= i <= |line| && ByteAt(line, i) == b
  }

  /** The character that starts at an offset. */
  function CharAt(line: string, b: nat): (i: nat)
    requires OnBoundary(line, b)
    ensures i <= |line| && ByteAt(line, i) == b
  {
    CharFrom(line, b, |line|)
  }

  function CharFrom(line: string, b: nat, n: nat): (i: nat)
    requires n <= |line| && exists i :: 0 <= i <= n && ByteAt(line, i) == b
    ensures i <= n && ByteAt(line, i) == b
  {
    if ByteAt(line, n) == b then n
    else
      assert exists i :: 0 <= i <= n - 1 && ByteAt(line, i) == b by {
        var i :| 0 <= i <= n && ByteAt(line, i) == b;
        assert i <= n - 1;
      }
      CharFrom(line, b, n - 1)
  }

  /** Offsets and characters are in the same order. */
  lemma SameOrder(line: string, a: nat, b: nat)
    requires OnBoundary(line, a) && OnBoundary(line, b)
    ensures CharAt(line, a) < CharAt(line, b) <==> a < b
    ensures CharAt(line, a) == CharAt(line, b) <==> a == b
  {
    var i, j := CharAt(line, a), CharAt(line, b);
    if i < j { OffsetsGrow(line, i, j); }
    if j < i { OffsetsGrow(line, j, i); }
  }

  lemma CharAtByteAt(line: string, i: nat)
    requires i <= |line|
    ensures OnBoundary(line, ByteAt(line, i)) && CharAt(line, ByteAt(line, i)) == i
  {
    var j := CharAt(line, ByteAt(line, i));
    if i < j { OffsetsGrow(line, i, j); }
    if j < i { OffsetsGrow(line, j, i); }
  }

  /** `&line[a..b]` on byte offsets. */
  function Slice(line: string, a: nat, b: nat): string
    requires OnBoundary(line, a) && OnBoundary(line, b) && a <= b
  {
    SameOrder(line, a, b);
    line[CharAt(line, a)..CharAt(line, b)]
  }

  function Length(line: string): (n: nat)
    ensures OnBoundary(line, n)
  {
    ByteAt(line, |line|)
  }

  /** `&line[a..]`. */
  lemma SliceToEnd(line: string, a: nat)
    requires OnBoundary(line, a)
    ensures a <= Length(line) && Slice(line, a, Length(line)) == line[CharAt(line, a)..]
  {
    CharAtByteAt(line, |line|);
    SameOrder(line, a, Length(line));
  }
}
