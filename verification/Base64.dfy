/** Padded base64 (tools/fs-read/src/main.rs:27-42) against the decoder of section 4 of RFC 4648. */
module Base64 {
  import opened Wrappers

  type Byte = b: int | 0 <= b < 256
  type Sextet = v: int | 0 <= v < 64

  const UPPER := "ABCDEFGHIJKLMNOPQRSTUVWXYZ"
  const LOWER := "abcdefghijklmnopqrstuvwxyz"
  const ALPHABET := UPPER + LOWER + "0123456789" + "+/"

  /** The symbol of a six-bit value; AlphabetInOrder shows it is entry `v` of the alphabet. */
  function Symbol(v: Sextet): char {
    (if v < 26 then v + 65 else if v < 52 then v + 71 else if v < 62 then v - 4
     else if v == 62 then 43 else 47) as char
  }

  // ---------- the encoder ----------

  /** The 24-bit word of a chunk; the shifted bytes have no bits in common, so `|` adds. */
  function Word(b0: Byte, b1: Byte, b2: Byte): (n: int)
    ensures 0 <= n < 0x100_0000
  {
    b0 * 0x1_0000 + b1 * 0x100 + b2
  }

  /** `(n >> 6 * k) & 63` for the four positions, from the left. */
  function Sextets(n: int): (Sextet, Sextet, Sextet, Sextet)
    requires 0 <= n < 0x100_0000
  {
    (n / 0x4_0000 % 64, n / 0x1000 % 64, n / 64 % 64, n % 64)
  }

  /** The four characters for `k` bytes. */
  function Quad(v0: Sextet, v1: Sextet, v2: Sextet, v3: Sextet, k: nat): (r: string)
    ensures |r| == 4
  {
    [Symbol(v0), Symbol(v1), if k > 1 then Symbol(v2) else '=', if k > 2 then Symbol(v3) else '=']
  }

  /** One chunk of one to three bytes; missing bytes count as zero and their symbols are `=`. */
  function EncodeChunk(c: seq<Byte>): (r: string)
    requires 1 <= |c| <= 3
    ensures |r| == 4
  {
    var n := Word(c[0], if |c| > 1 then c[1] else 0, if |c| > 2 then c[2] else 0);
    var (v0, v1, v2, v3) := Sextets(n);
    Quad(v0, v1, v2, v3, |c|)
  }

  /** The input cut into chunks of three bytes, the last one possibly shorter. */
  function Chunks(input: seq<Byte>): (r: seq<seq<Byte>>)
    ensures |r| == (|input| + 2) / 3
    ensures forall c | c in r :: 1 <= |c| <= 3
  {
    if input == [] then [] else if |input| <= 3 then [input] else [input[..3]] + Chunks(input[3..])
  }

  function EncodeAll(chunks: seq<seq<Byte>>): (r: string)
    requires forall c | c in chunks :: 1 <= |c| <= 3
    ensures |r| == 4 * |chunks|
  {
    if chunks == [] then "" else EncodeChunk(chunks[0]) + EncodeAll(chunks[1..])
  }

  function Encode(input: seq<Byte>): (r: string)
    ensures |r| == 4 * ((|input| + 2) / 3)
  {
    EncodeAll(Chunks(input))
  }

  method B64Encode(input: seq<Byte>) returns (out: string)
    ensures out == Encode(input)
    ensures |out| == 4 * ((|input| + 2) / 3)
    ensures Decode(out) == Some(input)
  {
    var chunks := Chunks(input);
    out := "";
    for i := 0 to |chunks|
      invariant out + EncodeAll(chunks[i..]) == Encode(input)
    {
      assert chunks[i..][1..] == chunks[i + 1..];
      ghost var before := out;
      out := out + EncodeChunk(chunks[i]);
      assert out + EncodeAll(chunks[i + 1..]) == before + (EncodeChunk(chunks[i]) + EncodeAll(chunks[i + 1..]));
    }
    DecodeUndoesEncode(input);
  }

  // ---------- the decoder ----------

  function SymbolValue(c: char): Option<Sextet> {
    if 'A' <= c <= 'Z' then Some(c as int - 'A' as int)
    else if 'a' <= c <= 'z' then Some(c as int - 'a' as int + 26)
    else if '0' <= c <= '9' then Some(c as int - '0' as int + 52)
    else if c == '+' then Some(62)
    else if c == '/' then Some(63)
    else None
  }

  /** A final quantum may end in one or two `=`; the bits left over then have to be zero. */
  function DecodeQuad(q: string, last: bool): Option<seq<Byte>>
    requires |q| == 4
  {
    var v0, v1, v2, v3 := SymbolValue(q[0]), SymbolValue(q[1]), SymbolValue(q[2]), SymbolValue(q[3]);
    if v0.None? || v1.None? then None
    else
      var b0 := v0.value * 4 + v1.value / 16;
      if last && q[2] == '=' && q[3] == '=' then (if v1.value % 16 == 0 then Some([b0]) else None)
      else if v2.None? then None
      else
        var b1 := v1.value % 16 * 16 + v2.value / 4;
        if last && q[3] == '=' then (if v2.value % 4 == 0 then Some([b0, b1]) else None)
        else if v3.None? then None
        else Some([b0, b1, v2.value % 4 * 64 + v3.value])
  }

  function Decode(s: string): Option<seq<Byte>> {
    if s == "" then Some([])
    else if |s| < 4 then None
    else
      var head := DecodeQuad(s[..4], |s| == 4);
      var tail := Decode(s[4..]);
      if head.Some? && tail.Some? then Some(head.value + tail.value) else None
  }

  /** The alphabet lists the capital letters, the small letters, the digits, `+` and `/`. */
  lemma AlphabetInOrder(v: Sextet)
    ensures |ALPHABET| == 64 && ALPHABET[v] == Symbol(v)
  {
    assert v < 26 ==> ALPHABET[v] == UPPER[v];
    assert 26 <= v < 52 ==> ALPHABET[v] == LOWER[v - 26];
    assert 52 <= v < 62 ==> ALPHABET[v] == "0123456789"[v - 52];
  }

  lemma SymbolsInvert(v: Sextet, c: char)
    ensures SymbolValue(Symbol(v)) == Some(v) && Symbol(v) != '='
    ensures SymbolValue(c) == Some(v) ==> c == Symbol(v)
  {
  }

  lemma Digits(v0: Sextet, v1: Sextet, v2: Sextet, v3: Sextet, n: int)
    requires n == v0 * 0x4_0000 + v1 * 0x1000 + v2 * 64 + v3
    ensures 0 <= n < 0x100_0000 && Sextets(n) == (v0, v1, v2, v3)
  {
    assert n / 0x4_0000 == v0;
    assert n / 0x1000 == v0 * 64 + v1;
    assert n / 64 == v0 * 4096 + v1 * 64 + v2;
  }

  lemma WordOfSextets(b0: Byte, b1: Byte, b2: Byte)
    ensures var (v0, v1, v2, v3) := Sextets(Word(b0, b1, b2));
            && b0 == v0 * 4 + v1 / 16
            && b1 == v1 % 16 * 16 + v2 / 4
            && b2 == v2 % 4 * 64 + v3
            && (b2 == 0 ==> v2 % 4 == 0)
            && (b1 == 0 && b2 == 0 ==> v1 % 16 == 0)
  {
    Digits(b0 / 4, b0 % 4 * 16 + b1 / 16, b1 % 16 * 4 + b2 / 64, b2 % 64, Word(b0, b1, b2));
  }

  lemma SextetsOfWord(v0: Sextet, v1: Sextet, v2: Sextet, v3: Sextet)
    ensures var b0, b1, b2 := v0 * 4 + v1 / 16, v1 % 16 * 16 + v2 / 4, v2 % 4 * 64 + v3;
            b0 < 256 && b1 < 256 && b2 < 256 && Sextets(Word(b0, b1, b2)) == (v0, v1, v2, v3)
  {
    Digits(v0, v1, v2, v3, Word(v0 * 4 + v1 / 16, v1 % 16 * 16 + v2 / 4, v2 % 4 * 64 + v3));
  }

  lemma QuadDecodes(v0: Sextet, v1: Sextet, v2: Sextet, v3: Sextet, k: nat, last: bool)
    requires 1 <= k <= 3 && (k < 3 ==> last)
    requires (k == 1 ==> v1 % 16 == 0) && (k == 2 ==> v2 % 4 == 0)
    ensures DecodeQuad(Quad(v0, v1, v2, v3, k), last)
            == Some([v0 * 4 + v1 / 16, v1 % 16 * 16 + v2 / 4, v2 % 4 * 64 + v3][..k])
  {
    SymbolsInvert(v0, '=');
    SymbolsInvert(v1, '=');
    SymbolsInvert(v2, '=');
    SymbolsInvert(v3, '=');
    var all := [v0 * 4 + v1 / 16, v1 % 16 * 16 + v2 / 4, v2 % 4 * 64 + v3];
    assert all[..1] == [all[0]] && all[..2] == [all[0], all[1]] && all[..3] == all;
  }

  lemma ChunkSextets(c: seq<Byte>) returns (v0: Sextet, v1: Sextet, v2: Sextet, v3: Sextet)
    requires 1 <= |c| <= 3
    ensures EncodeChunk(c) == Quad(v0, v1, v2, v3, |c|)
    ensures c == [v0 * 4 + v1 / 16, v1 % 16 * 16 + v2 / 4, v2 % 4 * 64 + v3][..|c|]
    ensures (|c| == 1 ==> v1 % 16 == 0) && (|c| == 2 ==> v2 % 4 == 0)
  {
    var b0, b1, b2 := c[0], if |c| > 1 then c[1] else 0, if |c| > 2 then c[2] else 0;
    WordOfSextets(b0, b1, b2);
    var v := Sextets(Word(b0, b1, b2));
    v0, v1, v2, v3 := v.0, v.1, v.2, v.3;
    assert c == [b0, b1, b2][..|c|];
  }

  /** A chunk decodes to itself; a padded one only as the last. */
  lemma ChunkDecodes(c: seq<Byte>, last: bool)
    requires 1 <= |c| <= 3 && (|c| < 3 ==> last)
    ensures DecodeQuad(EncodeChunk(c), last) == Some(c)
  {
    var v0, v1, v2, v3 := ChunkSextets(c);
    QuadDecodes(v0, v1, v2, v3, |c|, last);
  }

  /** Whatever a quad decodes to encodes back to that quad. */
  lemma QuadEncodes(q: string, last: bool)
    requires |q| == 4 && DecodeQuad(q, last).Some?
    ensures var c := DecodeQuad(q, last).value;
            1 <= |c| <= 3 && (|c| < 3 ==> last) && EncodeChunk(c) == q
  {
    var v0, v1 := SymbolValue(q[0]).value, SymbolValue(q[1]).value;
    var v2 := if SymbolValue(q[2]).Some? then SymbolValue(q[2]).value else 0;
    var v3 := if SymbolValue(q[3]).Some? then SymbolValue(q[3]).value else 0;
    SextetsOfWord(v0, v1, v2, v3);
    SymbolsInvert(v0, q[0]);
    SymbolsInvert(v1, q[1]);
    SymbolsInvert(v2, q[2]);
    SymbolsInvert(v3, q[3]);
  }

  lemma DecodeStep(s: string)
    requires |s| >= 4
    ensures Decode(s).Some? <==> DecodeQuad(s[..4], |s| == 4).Some? && Decode(s[4..]).Some?
    ensures Decode(s).Some? ==> Decode(s).value == DecodeQuad(s[..4], |s| == 4).value + Decode(s[4..]).value
  {
  }

  lemma {:induction false} DecodeUndoesEncode(input: seq<Byte>)
    ensures Decode(Encode(input)) == Some(input)
    decreases |input|
  {
    var s := Encode(input);
    if input != [] {
      var chunks := Chunks(input);
      ChunkDecodes(chunks[0], |s| == 4);
      assert s[..4] == EncodeChunk(chunks[0]) && s[4..] == EncodeAll(chunks[1..]);
      DecodeStep(s);
      if |input| > 3 {
        assert chunks[1..] == Chunks(input[3..]);
        DecodeUndoesEncode(input[3..]);
        assert input == input[..3] + input[3..];
      } else {
        assert s[4..] == "" && chunks[0] == input && input + [] == input;
        assert Decode("").value == [];
      }
    }
  }

  lemma {:induction false} EncodeUndoesDecode(s: string)
    requires Decode(s).Some?
    ensures Encode(Decode(s).value) == s
    decreases |s|
  {
    if s != "" {
      DecodeStep(s);
      QuadEncodes(s[..4], |s| == 4);
      EncodeUndoesDecode(s[4..]);
      var c, rest := DecodeQuad(s[..4], |s| == 4).value, Decode(s[4..]).value;
      var input := c + rest;
      assert s == s[..4] + s[4..];
      if rest == [] {
        assert Chunks(input) == [c] by { assert input == c; }
      } else {
        assert |s| > 4;
        assert input[..3] == c && input[3..] == rest;
        assert Chunks(input) == [c] + Chunks(rest);
      }
    }
  }

  /** The decoder accepts exactly the encoder's outputs and undoes them; so encoding is injective. */
  lemma DecodeInvertsEncode(input: seq<Byte>, s: string)
    ensures Decode(s) == Some(input) <==> s == Encode(input)
  {
    DecodeUndoesEncode(input);
    if Decode(s) == Some(input) { EncodeUndoesDecode(s); }
  }

  lemma EncodeIsInjective(a: seq<Byte>, b: seq<Byte>)
    requires Encode(a) == Encode(b)
    ensures a == b
  {
    DecodeUndoesEncode(a);
    DecodeUndoesEncode(b);
  }
}
