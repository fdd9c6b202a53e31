/**
 * The XOR stream cipher of the string encryption pass.
 *
 * The keystream is SplitMix32: the 32-bit state advances by the golden
 * ratio constant and each new state is scrambled into one 32-bit key.  A
 * byte string is processed in chunks of four bytes, one key per chunk,
 * byte j of a chunk XORed with bits 8j .. 8j+7 of the key.  XORing twice
 * with the same keystream gives the input back, which is how the emitted
 * decoder undoes the encryption done at compile time.
 */
module StringCipher {

  const GOLDEN: bv32 := 0x9E3779B9

  /** One step of the SplitMix32 state: it advances by the golden ratio constant. */
  function Advance(state: bv32): bv32
  {
    state + GOLDEN
  }

  // The rounds of the SplitMix32 output scrambler.

  function XorShift16(z: bv32): bv32 { z ^ (z >> 16) }
  function XorShift13(z: bv32): bv32 { z ^ (z >> 13) }
  function Mul1(z: bv32): bv32 { z * 0x85EBCA6B }
  function Mul2(z: bv32): bv32 { z * 0xC2B2AE35 }

  /** The value of z after the first n of the five rounds of the SplitMix32
      output scrambler: xor-shift by 16, multiply by 0x85EBCA6B, xor-shift
      by 13, multiply by 0xC2B2AE35, xor-shift by 16. */
  function Rounds(z: bv32, n: nat): bv32
    requires n <= 5
  {
    if n == 0 then z
    else
      var y := Rounds(z, n - 1);
      if n == 1 || n == 5 then XorShift16(y)
      else if n == 2 then Mul1(y)
      else if n == 3 then XorShift13(y)
      else Mul2(y)
  }

  /** The output scrambler of SplitMix32, applied to the advanced state. */
  function Mix(s: bv32): bv32
  {
    Rounds(s, 5)
  }

  /** Mix is the composition of its five rounds. */
  lemma MixRounds(s: bv32)
    ensures Mix(s) == XorShift16(Mul2(XorShift13(Mul1(XorShift16(s)))))
  {
    assert Rounds(s, 1) == XorShift16(s);
    assert Rounds(s, 2) == Mul1(Rounds(s, 1));
    assert Rounds(s, 3) == XorShift13(Rounds(s, 2));
    assert Rounds(s, 4) == Mul2(Rounds(s, 3));
  }

  /** SplitMix32(state): the state advances by GOLDEN, and the key returned
      is the scrambled new state. */
  method SplitMix32(state: bv32) returns (next: bv32, z: bv32)
    ensures next == Advance(state)
    ensures z == Mix(next)
  {
    next := state + GOLDEN;
    z := next;
    z := XorShift16(z);
    z := Mul1(z);
    z := XorShift13(z);
    z := Mul2(z);
    z := XorShift16(z);
    MixRounds(next);
  }

  /** The state after n calls of SplitMix32 starting from seed. */
  function StateAfter(seed: bv32, n: nat): bv32
  {
    if n == 0 then seed else Advance(StateAfter(seed, n - 1))
  }

  /** The key of chunk n of a string keyed from seed: the first key drawn
      from the state n steps on. */
  function Key(seed: bv32, n: nat): bv32
    decreases n
  {
    if n == 0 then Mix(Advance(seed)) else Key(Advance(seed), n - 1)
  }

  /** The low eight bits (an i8 truncation or a mask with 0xFF). */
  function LowByte(x: bv32): bv8
  {
    (x & 0xFF) as bv8
  }

  /** Byte j of a key: bits 8j .. 8j+7, that is the low byte of key >> 8j. */
  function KeyByte(key: bv32, j: nat): bv8
    requires j < 4
  {
    if j == 0 then LowByte(key) else KeyByte(key >> 8, j - 1)
  }

  /** Byte j of a key is the low byte of key >> 8j: the i8 truncations of
      key, key >> 8, key >> 16 and key >> 24. */
  lemma KeyBytes(key: bv32)
    ensures KeyByte(key, 0) == LowByte(key)
    ensures KeyByte(key, 1) == LowByte(key >> 8)
    ensures KeyByte(key, 2) == LowByte(key >> 16)
    ensures KeyByte(key, 3) == LowByte(key >> 24)
  {
    var k1, k2 := key >> 8, (key >> 8) >> 8;
    assert k2 == key >> 16;
    assert k2 >> 8 == key >> 24;
    assert KeyByte(key, 2) == KeyByte(k1, 1) == KeyByte(k2, 0);
    assert KeyByte(key, 3) == KeyByte(k1, 2) == KeyByte(k2, 1) == LowByte(k2 >> 8);
  }

  /** Byte-wise exclusive or. */
  function Xor8(a: bv8, b: bv8): bv8
  {
    a ^ b
  }

  /** Byte k of the keystream from seed: byte k % 4 of the key of chunk k / 4. */
  function StreamByte(seed: bv32, k: nat): bv8
  {
    KeyByte(Key(seed, k / 4), k % 4)
  }

  /** The keystream XOR of s: byte k XORed with byte k of the keystream from seed. */
  function Cipher(s: seq<bv8>, seed: bv32): (r: seq<bv8>)
    ensures |r| == |s|
  {
    if |s| == 0 then []
    else Cipher(s[..|s| - 1], seed) + [Xor8(s[|s| - 1], StreamByte(seed, |s| - 1))]
  }

  /** Byte k of the cipher text is byte k of the input XORed with byte k of the keystream. */
  lemma {:induction false} CipherAt(s: seq<bv8>, seed: bv32, k: nat)
    requires k < |s|
    ensures Cipher(s, seed)[k] == Xor8(s[k], StreamByte(seed, k))
  {
    if k < |s| - 1 {
      CipherAt(s[..|s| - 1], seed, k);
    }
  }

  /** A sequence that agrees byte by byte with the keystream XOR of s is its cipher. */
  lemma CipherFromBytes(s: seq<bv8>, seed: bv32, out: seq<bv8>)
    requires |out| == |s|
    requires forall k :: 0 <= k < |s| ==> out[k] == Xor8(s[k], StreamByte(seed, k))
    ensures out == Cipher(s, seed)
  {
    forall k | 0 <= k < |s|
      ensures out[k] == Cipher(s, seed)[k]
    {
      CipherAt(s, seed, k);
    }
  }

  /** One chunk XORed with its key. */
  function XorChunk(chunk: seq<bv8>, key: bv32): (r: seq<bv8>)
    requires |chunk| <= 4
    ensures |r| == |chunk|
  {
    seq(|chunk|, j requires 0 <= j < |chunk| => Xor8(chunk[j], KeyByte(key, j)))
  }

  /** The same cipher as the encoder and the decoder run it: from state, one
      SplitMix32 call per chunk of min(remaining, 4) bytes. */
  function ChunkedCipher(s: seq<bv8>, state: bv32): (r: seq<bv8>)
    ensures |r| == |s|
    decreases |s|
  {
    if |s| == 0 then []
    else
      var next := Advance(state);
      var c := if |s| < 4 then |s| else 4;
      XorChunk(s[..c], Mix(next)) + ChunkedCipher(s[c..], next)
  }

  lemma {:induction false} StateAfterShift(seed: bv32, n: nat)
    ensures StateAfter(Advance(seed), n) == StateAfter(seed, n + 1)
  {
    if n > 0 {
      StateAfterShift(seed, n - 1);
    }
  }

  /** Byte j of chunk n is byte j of that chunk's key. */
  lemma StreamByteInChunk(seed: bv32, n: nat, j: nat)
    requires j < 4
    ensures StreamByte(seed, 4 * n + j) == KeyByte(Key(seed, n), j)
  {
    assert (4 * n + j) / 4 == n && (4 * n + j) % 4 == j;
  }

  /** Four bytes on, the keystream is that of the advanced state. */
  lemma StreamByteShift(seed: bv32, k: nat)
    requires k >= 4
    ensures StreamByte(seed, k) == StreamByte(Advance(seed), k - 4)
  {
    assert k / 4 == (k - 4) / 4 + 1 && k % 4 == (k - 4) % 4;
  }

  /** Key n is the scrambled state after n + 1 SplitMix32 steps. */
  lemma {:induction false} KeyState(seed: bv32, n: nat)
    ensures Key(seed, n) == Mix(Advance(StateAfter(seed, n)))
    decreases n
  {
    if n > 0 {
      KeyState(Advance(seed), n - 1);
      StateAfterShift(seed, n - 1);
    }
  }

  /** Byte k of the chunked cipher is byte k of the input XORed with byte k of the keystream. */
  lemma {:induction false} ChunkedAt(s: seq<bv8>, seed: bv32, k: nat)
    requires k < |s|
    ensures ChunkedCipher(s, seed)[k] == Xor8(s[k], StreamByte(seed, k))
    decreases |s|
  {
    if k < 4 {
      ChunkedHead(s, seed, k);
    } else {
      ChunkedAt(s[4..], Advance(seed), k - 4);
      ChunkedLater(s, seed, k);
    }
  }

  /** Byte k past the first chunk is byte k - 4 of the chunked cipher of the rest. */
  lemma ChunkedLater(s: seq<bv8>, seed: bv32, k: nat)
    requires 4 <= k < |s|
    requires ChunkedCipher(s[4..], Advance(seed))[k - 4] == Xor8(s[4..][k - 4], StreamByte(Advance(seed), k - 4))
    ensures ChunkedCipher(s, seed)[k] == Xor8(s[k], StreamByte(seed, k))
  {
    ChunkedTail(s, seed, k);
    StreamByteShift(seed, k);
    assert s[4..][k - 4] == s[k];
  }

  /** The first chunk is XORed with the key of chunk 0. */
  lemma ChunkedHead(s: seq<bv8>, seed: bv32, k: nat)
    requires k < |s| && k < 4
    ensures ChunkedCipher(s, seed)[k] == Xor8(s[k], StreamByte(seed, k))
  {
    ChunkedFirst(s, seed, k);
    KeyZero(seed);
    StreamByteInChunk(seed, 0, k);
  }

  lemma ChunkedFirst(s: seq<bv8>, seed: bv32, k: nat)
    requires k < |s| && k < 4
    ensures ChunkedCipher(s, seed)[k] == Xor8(s[k], KeyByte(Mix(Advance(seed)), k))
  {
    var c := if |s| < 4 then |s| else 4;
    var x := XorChunk(s[..c], Mix(Advance(seed)));
    assert ChunkedCipher(s, seed) == x + ChunkedCipher(s[c..], Advance(seed));
  }

  lemma KeyZero(seed: bv32)
    ensures Key(seed, 0) == Mix(Advance(seed))
  {
  }

  /** Past the first chunk, the chunked cipher goes on from the advanced state. */
  lemma ChunkedTail(s: seq<bv8>, seed: bv32, k: nat)
    requires 4 <= k < |s|
    ensures ChunkedCipher(s, seed)[k] == ChunkedCipher(s[4..], Advance(seed))[k - 4]
  {
    var x := XorChunk(s[..4], Mix(Advance(seed)));
    assert ChunkedCipher(s, seed) == x + ChunkedCipher(s[4..], Advance(seed));
  }

  /** One SplitMix32 call per chunk of four bytes produces exactly the keystream. */
  lemma ChunkedIsCipher(s: seq<bv8>, seed: bv32)
    ensures ChunkedCipher(s, seed) == Cipher(s, seed)
  {
    forall k | 0 <= k < |s|
      ensures ChunkedCipher(s, seed)[k] == Xor8(s[k], StreamByte(seed, k))
    {
      ChunkedAt(s, seed, k);
    }
    CipherFromBytes(s, seed, ChunkedCipher(s, seed));
  }

  lemma XorTwice(a: bv8, k: bv8)
    ensures Xor8(Xor8(a, k), k) == a
  {
  }

  /** Applying the cipher twice with the same seed gives the input back. */
  lemma CipherInvolution(s: seq<bv8>, seed: bv32)
    ensures Cipher(Cipher(s, seed), seed) == s
  {
    var c := Cipher(s, seed);
    forall k | 0 <= k < |s|
      ensures s[k] == Xor8(c[k], StreamByte(seed, k))
    {
      CipherAt(s, seed, k);
      XorTwice(s[k], StreamByte(seed, k));
    }
    CipherFromBytes(c, seed, s);
  }

  // ---------------------------------------------------------------------
  // XorEncryptStrings

  /** i modulo 2^32 as a 32-bit word: the size_t index truncated to
      uint32_t, and equally the value of a 32-bit counter after i increments. */
  function Index32(i: nat): bv32
  {
    if i == 0 then 0 else Index32(i - 1) + 1
  }

  /** The seed of string i: master_seed ^ i. */
  function Seed(master: bv32, i: nat): bv32
  {
    SeedOf(master, Index32(i))
  }

  /** The seed the table constructor computes from its 32-bit counter. */
  function SeedOf(master: bv32, counter: bv32): bv32
  {
    master ^ counter
  }

  /** Every string encrypted with its own seed. */
  function EncryptAll(strings: seq<seq<bv8>>, master: bv32): (r: seq<seq<bv8>>)
    ensures |r| == |strings|
    ensures forall i :: 0 <= i < |strings| ==> |r[i]| == |strings[i]|
  {
    seq(|strings|, i requires 0 <= i < |strings| => Cipher(strings[i], Seed(master, i)))
  }

  /** XorEncryptStrings twice with the same master seed restores every string. */
  lemma EncryptAllInvolution(strings: seq<seq<bv8>>, master: bv32)
    ensures EncryptAll(EncryptAll(strings, master), master) == strings
  {
    var e := EncryptAll(strings, master);
    forall i | 0 <= i < |strings|
      ensures EncryptAll(e, master)[i] == strings[i]
    {
      CipherInvolution(strings[i], Seed(master, i));
    }
  }

  /** XorEncryptStrings: every string is replaced, in place, by its cipher
      under master_seed ^ i; the number of strings and their lengths stay. */
  method XorEncryptStrings(strings: array<seq<bv8>>, master: bv32)
    modifies strings
    ensures forall i :: 0 <= i < strings.Length ==> strings[i] == Cipher(old(strings[i]), Seed(master, i))
  {
    for i := 0 to strings.Length
      invariant forall k :: 0 <= k < i ==> strings[k] == Cipher(old(strings[k]), Seed(master, k))
      invariant forall k :: i <= k < strings.Length ==> strings[k] == old(strings[k])
    {
      var s := EncryptOne(strings[i], Seed(master, i));
      strings[i] := s;
    }
  }

  /** The four bytes of chunk n of the keystream are the four bytes of its key. */
  lemma ChunkKeyBytes(seed: bv32, n: nat, key: bv32)
    requires key == Key(seed, n)
    ensures forall k :: 4 * n <= k < 4 * n + 4 ==> StreamByte(seed, k) == KeyByte(key, k - 4 * n)
  {
    forall k | 4 * n <= k < 4 * n + 4
      ensures StreamByte(seed, k) == KeyByte(key, k - 4 * n)
    {
      StreamByteInChunk(seed, n, k - 4 * n);
    }
  }

  /** The body of the outer loop of XorEncryptStrings for one string: the
      offset loop, one SplitMix32 call per chunk of min(len - offset, 4) bytes. */
  method EncryptOne(input: seq<bv8>, seed: bv32) returns (s: seq<bv8>)
    ensures s == Cipher(input, seed)
  {
    var state := seed;
    s := input;
    var len := |s|;
    var offset := 0;
    ghost var n := 0;
    while offset < len
      invariant offset <= len == |s|
      invariant offset < len ==> offset == 4 * n && state == StateAfter(seed, n)
      invariant forall k :: 0 <= k < offset ==> s[k] == Xor8(input[k], StreamByte(seed, k))
      invariant forall k :: offset <= k < len ==> s[k] == input[k]
    {
      var next, key := SplitMix32(state);
      KeyState(seed, n);
      ChunkKeyBytes(seed, n, key);
      var chunk := if len - offset < 4 then len - offset else 4;
      s := XorKeyBytes(s, offset, chunk, key);
      offset := offset + chunk;
      state := next;
      n := n + 1;
    }
    CipherFromBytes(input, seed, s);
  }

  /** The byte loop of one chunk: byte offset + j XORed with byte j of the key. */
  method XorKeyBytes(s: seq<bv8>, offset: nat, chunk: nat, key: bv32) returns (t: seq<bv8>)
    requires chunk <= 4 && offset + chunk <= |s|
    ensures |t| == |s|
    ensures forall k :: 0 <= k < offset ==> t[k] == s[k]
    ensures forall k :: offset <= k < offset + chunk ==> t[k] == Xor8(s[k], KeyByte(key, k - offset))
    ensures forall k :: offset + chunk <= k < |s| ==> t[k] == s[k]
  {
    t := s;
    for j := 0 to chunk
      invariant |t| == |s|
      invariant forall k :: 0 <= k < offset ==> t[k] == s[k]
      invariant forall k :: offset <= k < offset + j ==> t[k] == Xor8(s[k], KeyByte(key, k - offset))
      invariant forall k :: offset + j <= k < |s| ==> t[k] == s[k]
    {
      t := t[offset + j := Xor8(t[offset + j], KeyByte(key, j))];
    }
  }

  // ---------------------------------------------------------------------
  // The decoder emitted by EmitDecryptBuffer, as the loop it runs

  /** A buffer whose first len bytes are decoded with seed; the rest as it was. */
  function Decoded(content: seq<bv8>, seed: bv32, len: nat): (r: seq<bv8>)
    requires len <= |content|
    ensures |r| == |content|
  {
    Cipher(content[..len], seed) + content[len..]
  }

  /** A buffer that agrees byte by byte with the decoding of content is Decoded. */
  lemma DecodedFromBytes(content: seq<bv8>, seed: bv32, len: nat, out: seq<bv8>)
    requires len <= |content| == |out|
    requires forall k :: 0 <= k < len ==> out[k] == Xor8(content[k], StreamByte(seed, k))
    requires forall k :: len <= k < |out| ==> out[k] == content[k]
    ensures out == Decoded(content, seed, len)
  {
    CipherFromBytes(content[..len], seed, out[..len]);
    assert out == out[..len] + content[len..];
  }

  /** The emitted decode loop, in place (in_ptr == out_ptr): off and state in
      32-bit slots, chunks of min(len - off, 4) bytes, byte off + j XORed with
      the low byte of key >> 8j.  The bytes from len on are untouched.  The
      offsets never wrap: off + chunk never exceeds len.  The i32 offset is a
      GEP index, which LLVM sign-extends, so len stays below 2^31. */
  method DecryptBuffer(buf: array<bv8>, seed: bv32, len: nat)
    requires len <= buf.Length && len < 0x8000_0000
    modifies buf
    ensures buf[..] == Decoded(old(buf[..]), seed, len)
  {
    ghost var orig := buf[..];
    var off := 0;
    var state := seed;
    ghost var n := 0;
    while off < len
      invariant off <= len
      invariant off < len ==> off == 4 * n && state == StateAfter(seed, n)
      invariant forall k :: 0 <= k < off ==> buf[k] == Xor8(orig[k], StreamByte(seed, k))
      invariant forall k :: off <= k < buf.Length ==> buf[k] == orig[k]
    {
      var next, key := SplitMix32(state);
      KeyState(seed, n);
      ChunkKeyBytes(seed, n, key);
      var rem := len - off;
      var chunk := if rem < 4 then rem else 4;
      DecodeChunk(buf, off, chunk, key);
      off := off + chunk;
      state := next;
      n := n + 1;
    }
    DecodedFromBytes(orig, seed, len, buf[..]);
  }

  /** The byte loop of one chunk of the decoder, in place. */
  method DecodeChunk(buf: array<bv8>, off: nat, chunk: nat, key: bv32)
    requires chunk <= 4 && off + chunk <= buf.Length
    modifies buf
    ensures forall k :: 0 <= k < off ==> buf[k] == old(buf[k])
    ensures forall k :: off <= k < off + chunk ==> buf[k] == Xor8(old(buf[k]), KeyByte(key, k - off))
    ensures forall k :: off + chunk <= k < buf.Length ==> buf[k] == old(buf[k])
  {
    for j := 0 to chunk
      invariant forall k :: 0 <= k < off ==> buf[k] == old(buf[k])
      invariant forall k :: off <= k < off + j ==> buf[k] == Xor8(old(buf[k]), KeyByte(key, k - off))
      invariant forall k :: off + j <= k < buf.Length ==> buf[k] == old(buf[k])
    {
      buf[off + j] := Xor8(buf[off + j], KeyByte(key, j));
    }
  }

  /** The table constructor: a 32-bit counter runs over the table, and
      buffer i is decoded in place with seed master_seed ^ i over the length
      held in the length table.  The counter indexes the tables as a
      sign-extended GEP index, so the table holds fewer than 2^31 entries. */
  method DecryptTable(bufs: seq<array<bv8>>, lens: seq<nat>, master: bv32)
    requires |bufs| == |lens| < 0x8000_0000
    requires forall i :: 0 <= i < |bufs| ==> lens[i] <= bufs[i].Length && lens[i] < 0x8000_0000
    requires forall i, k :: 0 <= i < k < |bufs| ==> bufs[i] != bufs[k]
    modifies set i | 0 <= i < |bufs| :: bufs[i]
    ensures forall i :: 0 <= i < |bufs| ==> bufs[i][..] == Decoded(old(bufs[i][..]), Seed(master, i), lens[i])
  {
    var idx := 0;
    var counter: bv32 := 0;
    while idx < |bufs|
      invariant idx <= |bufs|
      invariant counter == Index32(idx)
      invariant forall i :: 0 <= i < idx ==> bufs[i][..] == Decoded(old(bufs[i][..]), Seed(master, i), lens[i])
      invariant forall i :: idx <= i < |bufs| ==> bufs[i][..] == old(bufs[i][..])
    {
      DecryptBuffer(bufs[idx], SeedOf(master, counter), lens[idx]);
      idx := idx + 1;
      counter := counter + 1;
    }
  }

  /** Table path round trip: string i, encrypted by XorEncryptStrings and
      decoded with seed master_seed ^ i over its whole length, is the
      original string. */
  lemma TableRoundTrip(strings: seq<seq<bv8>>, master: bv32, i: nat)
    requires i < |strings|
    ensures Decoded(EncryptAll(strings, master)[i], Seed(master, i), |strings[i]|) == strings[i]
  {
    var e := EncryptAll(strings, master)[i];
    assert e[..|e|] == e;
    CipherInvolution(strings[i], Seed(master, i));
  }

  lemma XorZero(x: bv32)
    ensures x ^ 0 == x
  {
  }

  /** The only string of a one-string list is keyed by the master seed itself. */
  lemma SeedZero(master: bv32)
    ensures Seed(master, 0) == master
  {
    XorZero(master);
  }

  /** Stack path round trip: a string encrypted alone (index 0) and decoded
      with the master seed itself over its whole length is the original string. */
  lemma StackRoundTrip(s: seq<bv8>, master: bv32)
    ensures Decoded(EncryptAll([s], master)[0], master, |s|) == s
  {
    var e := EncryptAll([s], master)[0];
    assert e[..|e|] == e;
    SeedZero(master);
    CipherInvolution(s, master);
  }
}
