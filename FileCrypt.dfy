/**
 * Model of filecrypt: a repeating-key XOR cipher and a byte-rotation cipher,
 * each applied to a file that is read in chunks of at most 4096 bytes, and the
 * checks the command line goes through before any file is opened.
 *
 * File contents are byte sequences. What read() returns is the `chunks`
 * parameter of the two ciphers: the successive byte counts of the reads, each
 * between 1 and the buffer size, adding up to the length of the input.
 */
module FileCrypt {
  import opened Wrappers
  import opened Bytes

  /** Capacity of the read buffer both ciphers use. */
  const BufferSize: nat := 4096

  // ---------------------------------------------------------------------------
  // 8-bit rotation: roll_left and roll_right
  // ---------------------------------------------------------------------------

  /** One turn of roll_left's loop: bit 7 is carried round into bit 0. */
  function RotL1(b: byte): byte {
    (b << 1) | ((b & 0x80) >> 7)
  }

  /** One turn of roll_right's loop: bit 0 is carried round into bit 7. */
  function RotR1(b: byte): byte {
    (b >> 1) | ((b & 0x01) << 7)
  }

  /** `n` turns of the left roll. */
  function RotL(b: byte, n: nat): byte {
    if n == 0 then b else RotL1(RotL(b, n - 1))
  }

  /** `n` turns of the right roll. */
  function RotR(b: byte, n: nat): byte {
    if n == 0 then b else RotR1(RotR(b, n - 1))
  }

  /** C's `%` on an int truncates toward zero, so a negative count leaves a remainder <= 0. */
  function CRem8(x: int): (r: int)
    ensures -8 < r < 8
    ensures x >= 0 ==> r == x % 8
    ensures x < 0 ==> r <= 0
  {
    if x >= 0 then x % 8 else -((-x) % 8)
  }

  /** Each count of the counted left roll is the bit-vector rotation by that count, and eight turns change nothing. */
  lemma RotLIsRotateLeft(b: byte)
    ensures RotL(b, 1) == b.RotateLeft(1)
    ensures RotL(b, 2) == b.RotateLeft(2)
    ensures RotL(b, 3) == b.RotateLeft(3)
    ensures RotL(b, 4) == b.RotateLeft(4)
    ensures RotL(b, 5) == b.RotateLeft(5)
    ensures RotL(b, 6) == b.RotateLeft(6)
    ensures RotL(b, 7) == b.RotateLeft(7)
    ensures RotL(b, 8) == b
  {
    assert RotL(b, 1) == RotL1(b);
    assert RotL(b, 2) == RotL1(RotL(b, 1));
    assert RotL(b, 3) == RotL1(RotL(b, 2));
    assert RotL(b, 4) == RotL1(RotL(b, 3));
    assert RotL(b, 5) == RotL1(RotL(b, 4));
    assert RotL(b, 6) == RotL1(RotL(b, 5));
    assert RotL(b, 7) == RotL1(RotL(b, 6));
    assert RotL(b, 8) == RotL1(RotL(b, 7));
  }

  /** Each count of the counted right roll is the bit-vector rotation by that count, and eight turns change nothing. */
  lemma RotRIsRotateRight(b: byte)
    ensures RotR(b, 1) == b.RotateRight(1)
    ensures RotR(b, 2) == b.RotateRight(2)
    ensures RotR(b, 3) == b.RotateRight(3)
    ensures RotR(b, 4) == b.RotateRight(4)
    ensures RotR(b, 5) == b.RotateRight(5)
    ensures RotR(b, 6) == b.RotateRight(6)
    ensures RotR(b, 7) == b.RotateRight(7)
    ensures RotR(b, 8) == b
  {
    assert RotR(b, 1) == RotR1(b);
    assert RotR(b, 2) == RotR1(RotR(b, 1));
    assert RotR(b, 3) == RotR1(RotR(b, 2));
    assert RotR(b, 4) == RotR1(RotR(b, 3));
    assert RotR(b, 5) == RotR1(RotR(b, 4));
    assert RotR(b, 6) == RotR1(RotR(b, 5));
    assert RotR(b, 7) == RotR1(RotR(b, 6));
    assert RotR(b, 8) == RotR1(RotR(b, 7));
  }

  /** Rolling by m and then by n is rolling by m + n. */
  lemma {:induction false} RotLAdd(b: byte, m: nat, n: nat)
    ensures RotL(b, m + n) == RotL(RotL(b, m), n)
  {
    if n > 0 {
      RotLAdd(b, m, n - 1);
    }
  }

  /** An 8-bit rotation has period 8: only the count modulo 8 matters. */
  lemma {:induction false} RotLPeriodic(b: byte, n: nat)
    ensures RotL(b, n) == RotL(b, n % 8)
  {
    if n >= 8 {
      RotLAdd(b, 8, n - 8);
      RotLIsRotateLeft(b);
      RotLPeriodic(b, n - 8);
      assert (n - 8) % 8 == n % 8;
    }
  }

  /** A right roll commutes with a single right turn. */
  lemma {:induction false} RotRTurn(b: byte, n: nat)
    ensures RotR(RotR1(b), n) == RotR1(RotR(b, n))
  {
    if n > 0 {
      RotRTurn(b, n - 1);
    }
  }

  /** A left roll commutes with a single left turn. */
  lemma {:induction false} RotLTurn(b: byte, n: nat)
    ensures RotL(RotL1(b), n) == RotL1(RotL(b, n))
  {
    if n > 0 {
      RotLTurn(b, n - 1);
    }
  }

  /** roll_right undoes roll_left and roll_left undoes roll_right, for every count. */
  lemma {:induction false} RotInverse(b: byte, n: nat)
    ensures RotR(RotL(b, n), n) == b
    ensures RotL(RotR(b, n), n) == b
  {
    if n > 0 {
      var y := RotL(b, n - 1);
      assert RotR1(RotL1(y)) == y;
      RotRTurn(RotL1(y), n - 1);
      RotInverse(b, n - 1);
      var z := RotR(b, n - 1);
      assert RotL1(RotR1(z)) == z;
      RotLTurn(RotR1(z), n - 1);
    }
  }

  /** roll_left: `count % 8` single-bit left turns (C remainder, so none for a negative count). */
  method RollLeft(temp: byte, count: int) returns (r: byte)
    ensures r == RotL(temp, if count >= 0 then count % 8 else 0)
  {
    var s := CRem8(count);
    r := temp;
    var i := 0;
    while i < s
      invariant 0 <= i && (i <= s || i == 0)
      invariant r == RotL(temp, i)
    {
      var carry := (r & 0x80) >> 7;
      r := (r << 1) | carry;
      i := i + 1;
    }
  }

  /** For a non-negative count, roll_left is the 8-bit left rotation by `count % 8`. */
  lemma RollLeftRotates(b: byte, count: nat)
    ensures RotL(b, count % 8) == b.RotateLeft(count % 8)
  {
    RotLIsRotateLeft(b);
    var r := count % 8;
    if r == 0 {
      assert RotL(b, 0) == b == b.RotateLeft(0);
    }
  }

  /** roll_right: `count % 8` single-bit right turns (C remainder, so none for a negative count). */
  method RollRight(temp: byte, count: int) returns (r: byte)
    ensures r == RotR(temp, if count >= 0 then count % 8 else 0)
  {
    var s := CRem8(count);
    r := temp;
    var i := 0;
    while i < s
      invariant 0 <= i && (i <= s || i == 0)
      invariant r == RotR(temp, i)
    {
      var carry := (r & 0x01) << 7;
      r := (r >> 1) | carry;
      i := i + 1;
    }
  }

  /** For a non-negative count, roll_right is the 8-bit right rotation by `count % 8`. */
  lemma RollRightRotates(b: byte, count: nat)
    ensures RotR(b, count % 8) == b.RotateRight(count % 8)
  {
    RotRIsRotateRight(b);
    var r := count % 8;
    if r == 0 {
      assert RotR(b, 0) == b == b.RotateRight(0);
    }
  }

  // ---------------------------------------------------------------------------
  // Chunked reads
  // ---------------------------------------------------------------------------

  /** Number of bytes delivered by a sequence of reads. */
  function Total(chunks: seq<nat>): nat {
    if chunks == [] then 0 else chunks[0] + Total(chunks[1..])
  }

  /** The byte counts read() may return, in order, on an input of `size` bytes before end of file. */
  predicate IsChunking(chunks: seq<nat>, size: nat) {
    && (forall c :: 0 <= c < |chunks| ==> 1 <= chunks[c] <= BufferSize)
    && Total(chunks) == size
  }

  // ---------------------------------------------------------------------------
  // xor_crypt
  // ---------------------------------------------------------------------------

  /** The key byte used at key index `k`: the key repeats. */
  function KeyByte(key: seq<byte>, k: nat): byte
    requires |key| >= 1
  {
    key[k % |key|]
  }

  /** The XOR keystream applied to `data`, whose first byte sits at key index `k`. */
  function XorStream(data: seq<byte>, key: seq<byte>, k: nat): (r: seq<byte>)
    requires |key| >= 1
    decreases |data|
  {
    if data == [] then [] else [data[0] ^ KeyByte(key, k)] + XorStream(data[1..], key, k + 1)
  }

  /** Output byte i is input byte i XOR the key byte at (k + i) mod the key length. */
  lemma {:induction false} XorStreamAt(data: seq<byte>, key: seq<byte>, k: nat)
    requires |key| >= 1
    ensures |XorStream(data, key, k)| == |data|
    ensures forall i :: 0 <= i < |data| ==> XorStream(data, key, k)[i] == data[i] ^ KeyByte(key, k + i)
  {
    if data != [] {
      var rest := XorStream(data[1..], key, k + 1);
      XorStreamAt(data[1..], key, k + 1);
      assert XorStream(data, key, k) == [data[0] ^ KeyByte(key, k)] + rest;
      forall i | 1 <= i < |data|
        ensures XorStream(data, key, k)[i] == data[i] ^ KeyByte(key, k + i)
      {
        assert XorStream(data, key, k)[i] == rest[i - 1];
        assert data[1..][i - 1] == data[i];
      }
    }
  }

  /** The key index carries across a split, so the keystream does not depend on where the input is cut. */
  lemma {:induction false} XorStreamAppend(a: seq<byte>, b: seq<byte>, key: seq<byte>, k: nat)
    requires |key| >= 1
    ensures XorStream(a + b, key, k) == XorStream(a, key, k) + XorStream(b, key, k + |a|)
  {
    if a == [] {
      assert a + b == b;
    } else {
      var head := [a[0] ^ KeyByte(key, k)];
      assert (a + b)[0] == a[0] && (a + b)[1..] == a[1..] + b;
      XorStreamAppend(a[1..], b, key, k + 1);
      calc {
        XorStream(a + b, key, k);
        head + XorStream(a[1..] + b, key, k + 1);
        head + (XorStream(a[1..], key, k + 1) + XorStream(b, key, k + |a|));
        (head + XorStream(a[1..], key, k + 1)) + XorStream(b, key, k + |a|);
      }
    }
  }

  /** XOR with the same keystream twice gives back the original bytes. */
  lemma XorStreamInvolution(data: seq<byte>, key: seq<byte>, k: nat)
    requires |key| >= 1
    ensures XorStream(XorStream(data, key, k), key, k) == data
  {
    var enc := XorStream(data, key, k);
    XorStreamAt(data, key, k);
    XorStreamAt(enc, key, k);
    forall i | 0 <= i < |data|
      ensures XorStream(enc, key, k)[i] == data[i]
    {
      XorCancels(data[i], KeyByte(key, k + i));
    }
  }

  lemma XorCancels(a: byte, b: byte)
    ensures (a ^ b) ^ b == a
  {
  }

  /** A chunk XORed in place at key index `pos` is the keystream applied to those input bytes. */
  lemma XorChunk(input: seq<byte>, pos: nat, chunk: seq<byte>, key: seq<byte>)
    requires |key| >= 1
    requires pos + |chunk| <= |input|
    requires forall j :: 0 <= j < |chunk| ==> chunk[j] == input[pos + j] ^ KeyByte(key, pos + j)
    ensures chunk == XorStream(input[pos..pos + |chunk|], key, pos)
  {
    var plain := input[pos..pos + |chunk|];
    var enc := XorStream(plain, key, pos);
    XorStreamAt(plain, key, pos);
    forall j | 0 <= j < |chunk|
      ensures chunk[j] == enc[j]
    {
      assert plain[j] == input[pos + j];
    }
  }

  /** The keystream of a prefix, extended by the keystream of the next n bytes. */
  lemma XorStreamExtend(input: seq<byte>, pos: nat, n: nat, key: seq<byte>)
    requires |key| >= 1
    requires pos + n <= |input|
    ensures XorStream(input[..pos], key, 0) + XorStream(input[pos..pos + n], key, pos) == XorStream(input[..pos + n], key, 0)
  {
    var plain := input[pos..pos + n];
    XorStreamAppend(input[..pos], plain, key, 0);
    assert input[..pos] + plain == input[..pos + n];
  }

  /**
   * xor_crypt: each chunk is read into the buffer and XORed in place with the
   * key; keyIndex runs on across chunks, so whatever counts read() returns the
   * output is the keystream applied to the whole input.
   */
  method XorCrypt(input: seq<byte>, chunks: seq<nat>, key: seq<byte>) returns (output: seq<byte>)
    requires |key| >= 1
    requires IsChunking(chunks, |input|)
    ensures output == XorStream(input, key, 0)
  {
    var buffer := new byte[BufferSize];
    var keyIndex: nat := 0;
    var pos: nat := 0;
    output := [];
    for c := 0 to |chunks|
      invariant pos + Total(chunks[c..]) == |input|
      invariant keyIndex == pos
      invariant output == XorStream(input[..pos], key, 0)
    {
      var n := chunks[c];
      assert chunks[c..][1..] == chunks[c + 1..];
      forall j | 0 <= j < n {
        buffer[j] := input[pos + j];
      }
      for i := 0 to n
        invariant keyIndex == pos + i
        invariant forall j :: 0 <= j < i ==> buffer[j] == input[pos + j] ^ KeyByte(key, pos + j)
        invariant forall j :: i <= j < n ==> buffer[j] == input[pos + j]
      {
        buffer[i] := buffer[i] ^ key[keyIndex % |key|];
        keyIndex := keyIndex + 1;
      }
      XorChunk(input, pos, buffer[..n], key);
      XorStreamExtend(input, pos, n, key);
      output := output + buffer[..n];
      pos := pos + n;
    }
    assert input[..pos] == input;
  }

  // ---------------------------------------------------------------------------
  // bit_crypt
  // ---------------------------------------------------------------------------

  /** The rotation count bit_crypt takes from the key: the first byte mod 8, with 0 replaced by 1. */
  function Shift(key: seq<byte>): (s: nat)
    requires |key| >= 1
    ensures 1 <= s <= 7
    ensures (key[0] as int) % 8 != 0 ==> s == (key[0] as int) % 8
    ensures (key[0] as int) % 8 == 0 ==> s == 1
  {
    var s := (key[0] as int) % 8;
    if s == 0 then 1 else s
  }

  /** One byte of the rotation cipher: rolled right when decrypting, left otherwise. */
  function Roll(b: byte, shift: nat, decrypt: bool): byte {
    if decrypt then RotR(b, shift) else RotL(b, shift)
  }

  /** Every byte rolled by `shift`. */
  function BitStream(data: seq<byte>, shift: nat, decrypt: bool): (r: seq<byte>)
    decreases |data|
  {
    if data == [] then [] else [Roll(data[0], shift, decrypt)] + BitStream(data[1..], shift, decrypt)
  }

  /** The rotation cipher keeps the length and acts on each byte on its own. */
  lemma {:induction false} BitStreamAt(data: seq<byte>, shift: nat, decrypt: bool)
    ensures |BitStream(data, shift, decrypt)| == |data|
    ensures forall i :: 0 <= i < |data| ==> BitStream(data, shift, decrypt)[i] == Roll(data[i], shift, decrypt)
  {
    if data != [] {
      BitStreamAt(data[1..], shift, decrypt);
      forall i | 1 <= i < |data|
        ensures BitStream(data, shift, decrypt)[i] == BitStream(data[1..], shift, decrypt)[i - 1]
      {
      }
    }
  }

  /** Decrypting the rotation cipher's output with the same shift gives back the plaintext. */
  lemma BitStreamRoundTrip(data: seq<byte>, shift: nat)
    ensures BitStream(BitStream(data, shift, false), shift, true) == data
  {
    var enc := BitStream(data, shift, false);
    BitStreamAt(data, shift, false);
    BitStreamAt(enc, shift, true);
    forall i | 0 <= i < |data|
      ensures BitStream(enc, shift, true)[i] == data[i]
    {
      RotInverse(data[i], shift);
    }
  }

  /** The cipher of a prefix, extended by the cipher of the next n bytes. */
  lemma BitStreamExtend(input: seq<byte>, pos: nat, n: nat, shift: nat, decrypt: bool)
    requires pos + n <= |input|
    ensures BitStream(input[..pos], shift, decrypt) + BitStream(input[pos..pos + n], shift, decrypt) == BitStream(input[..pos + n], shift, decrypt)
  {
    var plain := input[pos..pos + n];
    BitStreamAppend(input[..pos], plain, shift, decrypt);
    assert input[..pos] + plain == input[..pos + n];
  }

  /** The pass bit_crypt makes over the `n` bytes just read: each is replaced by its roll. */
  method RollBuffer(buffer: array<byte>, n: nat, shift: nat, decrypt: bool)
    requires n <= buffer.Length && shift < 8
    modifies buffer
    ensures buffer[..n] == BitStream(old(buffer[..n]), shift, decrypt)
    ensures buffer[n..] == old(buffer[n..])
  {
    ghost var plain := buffer[..n];
    for i := 0 to n
      invariant forall j :: 0 <= j < i ==> buffer[j] == Roll(plain[j], shift, decrypt)
      invariant forall j :: i <= j < n ==> buffer[j] == plain[j]
      invariant buffer[n..] == old(buffer[n..])
    {
      var rolled;
      if decrypt {
        rolled := RollRight(buffer[i], shift);
      } else {
        rolled := RollLeft(buffer[i], shift);
      }
      buffer[i] := rolled;
    }
    BitStreamAt(plain, shift, decrypt);
  }

  /**
   * bit_crypt: each chunk is read into the buffer and every byte is replaced
   * by its roll, right when decrypting and left otherwise.
   */
  method BitCrypt(input: seq<byte>, chunks: seq<nat>, key: seq<byte>, decrypt: bool) returns (output: seq<byte>)
    requires |key| >= 1
    requires IsChunking(chunks, |input|)
    ensures output == BitStream(input, Shift(key), decrypt)
  {
    var buffer := new byte[BufferSize];
    var shift: nat := (key[0] as int) % 8;
    if shift == 0 {
      shift := 1;
    }
    assert shift == Shift(key) && shift % 8 == shift;
    var pos: nat := 0;
    output := [];
    for c := 0 to |chunks|
      invariant pos + Total(chunks[c..]) == |input|
      invariant output == BitStream(input[..pos], shift, decrypt)
    {
      var n := chunks[c];
      assert chunks[c..][1..] == chunks[c + 1..];
      forall j | 0 <= j < n {
        buffer[j] := input[pos + j];
      }
      assert buffer[..n] == input[pos..pos + n];
      RollBuffer(buffer, n, shift, decrypt);
      BitStreamExtend(input, pos, n, shift, decrypt);
      output := output + buffer[..n];
      pos := pos + n;
    }
    assert input[..pos] == input;
  }

  /** The rotation cipher of a concatenation is the concatenation of the ciphers. */
  lemma {:induction false} BitStreamAppend(a: seq<byte>, b: seq<byte>, shift: nat, decrypt: bool)
    ensures BitStream(a + b, shift, decrypt) == BitStream(a, shift, decrypt) + BitStream(b, shift, decrypt)
  {
    if a == [] {
      assert a + b == b;
    } else {
      var head := [Roll(a[0], shift, decrypt)];
      assert (a + b)[0] == a[0] && (a + b)[1..] == a[1..] + b;
      BitStreamAppend(a[1..], b, shift, decrypt);
      calc {
        BitStream(a + b, shift, decrypt);
        head + BitStream(a[1..] + b, shift, decrypt);
        head + (BitStream(a[1..], shift, decrypt) + BitStream(b, shift, decrypt));
        (head + BitStream(a[1..], shift, decrypt)) + BitStream(b, shift, decrypt);
      }
    }
  }

  // ---------------------------------------------------------------------------
  // The two algorithms behind one entry point
  // ---------------------------------------------------------------------------

  datatype Algorithm = Xor | Rol

  /** What the program writes for `data`: xor_crypt ignores the direction, bit_crypt does not. */
  function Crypt(algorithm: Algorithm, key: seq<byte>, decrypt: bool, data: seq<byte>): seq<byte>
    requires |key| >= 1
  {
    match algorithm
    case Xor => XorStream(data, key, 0)
    case Rol => BitStream(data, Shift(key), decrypt)
  }

  /** Decrypting with the key used to encrypt gives back the plaintext, for both algorithms; XOR is one operation both ways. */
  lemma CryptRoundTrip(algorithm: Algorithm, key: seq<byte>, plain: seq<byte>)
    requires |key| >= 1
    ensures Crypt(algorithm, key, true, Crypt(algorithm, key, false, plain)) == plain
    ensures |Crypt(algorithm, key, false, plain)| == |plain|
    ensures algorithm == Xor ==> Crypt(algorithm, key, true, plain) == Crypt(algorithm, key, false, plain)
  {
    match algorithm
    case Xor =>
      XorStreamInvolution(plain, key, 0);
      XorStreamAt(plain, key, 0);
    case Rol =>
      BitStreamRoundTrip(plain, Shift(key));
      BitStreamAt(plain, Shift(key), false);
  }

  // ---------------------------------------------------------------------------
  // Command-line validation and key input
  // ---------------------------------------------------------------------------

  /** The options as getopt left them (-a, -i, -o, -k hold their argument when given). */
  datatype CryptArgs = CryptArgs(
    encrypt: bool,             // -e
    decrypt: bool,             // -d
    input: Option<string>,     // -i
    output: Option<string>,    // -o
    algorithm: Option<string>, // -a
    keyPath: Option<string>,   // -k
    prompt: bool)              // -P

  datatype KeySource = KeyFile(path: string) | Prompt

  /** A command line that passed every check. */
  datatype CryptJob = CryptJob(
    algorithm: Algorithm, input: string, output: string, keySource: KeySource, decrypt: bool)

  /** The checks in the order they are made; each one exits with status 1. */
  datatype UsageError = BadAlgorithm | MissingFile | BadKeySource | NoDirection | BothDirections

  function AlgorithmNamed(name: Option<string>): (r: Option<Algorithm>)
    ensures r == Some(Xor) <==> name == Some("xor")
    ensures r == Some(Rol) <==> name == Some("rol")
    ensures r.None? <==> name != Some("xor") && name != Some("rol")
  {
    if name == Some("xor") then Some(Xor)
    else if name == Some("rol") then Some(Rol)
    else None
  }

  /** The argument checks made before any file is opened. */
  function ValidateArgs(a: CryptArgs): (r: Result<CryptJob, UsageError>)
    ensures r.Success? <==>
      && (a.algorithm == Some("xor") || a.algorithm == Some("rol"))
      && a.input.Some? && a.output.Some?
      && (a.keyPath.Some? != a.prompt)
      && (a.encrypt != a.decrypt)
    ensures r == Failure(BadAlgorithm) <==> a.algorithm != Some("xor") && a.algorithm != Some("rol")
    ensures r.Success? ==>
      && (r.value.algorithm == Xor <==> a.algorithm == Some("xor"))
      && Some(r.value.input) == a.input && Some(r.value.output) == a.output
      && (r.value.keySource == Prompt <==> a.prompt)
      && (a.keyPath.Some? ==> r.value.keySource == KeyFile(a.keyPath.value))
      && r.value.decrypt == a.decrypt
    ensures r == Failure(BothDirections) ==> a.encrypt && a.decrypt
    ensures r == Failure(NoDirection) ==> !a.encrypt && !a.decrypt
  {
    var algorithm := AlgorithmNamed(a.algorithm);
    if algorithm.None? then Failure(BadAlgorithm)
    else if a.input.None? || a.output.None? then Failure(MissingFile)
    else if (a.keyPath.None? && !a.prompt) || (a.keyPath.Some? && a.prompt) then Failure(BadKeySource)
    else if !a.encrypt && !a.decrypt then Failure(NoDirection)
    else if a.encrypt && a.decrypt then Failure(BothDirections)
    else
      var source := if a.prompt then Prompt else KeyFile(a.keyPath.value);
      Success(CryptJob(algorithm.value, a.input.value, a.output.value, source, a.decrypt))
  }

  datatype KeyError = KeyFileUnreadable | EmptyKeyFile | PromptUnreadable | EmptyPromptKey

  /** The key read from a key file (None: it cannot be opened or read); an empty file is refused. */
  function KeyFromFile(contents: Option<seq<byte>>): (r: Result<seq<byte>, KeyError>)
    ensures r.Success? <==> contents.Some? && |contents.value| >= 1
    ensures r.Success? ==> r.value == contents.value
  {
    match contents
    case None => Failure(KeyFileUnreadable)
    case Some(bytes) => if |bytes| == 0 then Failure(EmptyKeyFile) else Success(bytes)
  }

  /** Length of the prefix of `line` before its first newline or NUL byte. */
  function KeyLength(line: seq<byte>): (n: nat)
    ensures n <= |line|
    ensures forall i :: 0 <= i < n ==> line[i] != 10 && line[i] != 0
    ensures n < |line| ==> line[n] == 10 || line[n] == 0
  {
    if line == [] || line[0] == 10 || line[0] == 0 then 0 else 1 + KeyLength(line[1..])
  }

  /**
   * The key typed at the prompt: what fgets stored (None: it reported end of
   * input), cut at the newline and at the first NUL; an empty key is refused.
   */
  function KeyFromPrompt(line: Option<seq<byte>>): (r: Result<seq<byte>, KeyError>)
    ensures r.Success? <==> line.Some? && KeyLength(line.value) >= 1
    ensures r.Success? ==> r.value == line.value[..KeyLength(line.value)]
    ensures r.Success? ==> |r.value| >= 1 && forall i :: 0 <= i < |r.value| ==> r.value[i] != 10
  {
    match line
    case None => Failure(PromptUnreadable)
    case Some(text) =>
      var n := KeyLength(text);
      if n == 0 then Failure(EmptyPromptKey) else Success(text[..n])
  }

  /** What the program can see of the files and the terminal. */
  datatype CryptEnv = CryptEnv(
    inputFile: Option<seq<byte>>,  // None: the input path cannot be opened for reading
    outputOpens: bool,             // the output path can be created or truncated for writing
    keyFile: Option<seq<byte>>,    // None: the key file cannot be opened, allocated for or read
    promptLine: Option<seq<byte>>, // what fgets stores; None when it fails
    chunks: seq<nat>)              // the counts read() returns on the input

  function KeyFor(source: KeySource, env: CryptEnv): Result<seq<byte>, KeyError> {
    match source
    case KeyFile(_) => KeyFromFile(env.keyFile)
    case Prompt => KeyFromPrompt(env.promptLine)
  }

  /**
   * What the files hold once the output has been opened with O_TRUNC: an
   * input or key file named by the same path as the output is now empty, and
   * the reads of such an input return nothing.
   */
  function AfterTruncation(job: CryptJob, env: CryptEnv): (e: CryptEnv)
    ensures e.outputOpens == env.outputOpens && e.promptLine == env.promptLine
    ensures job.input == job.output && env.inputFile.Some? ==> e.inputFile == Some([]) && e.chunks == []
    ensures job.input != job.output ==> e.inputFile == env.inputFile && e.chunks == env.chunks
    ensures job.keySource == KeyFile(job.output) ==> e.keyFile == Some([])
    ensures job.keySource != KeyFile(job.output) ==> e.keyFile == env.keyFile
  {
    var aliasedInput := job.input == job.output && env.inputFile.Some?;
    env.(
      inputFile := if aliasedInput then Some([]) else env.inputFile,
      chunks := if aliasedInput then [] else env.chunks,
      keyFile := if job.keySource == KeyFile(job.output) then Some([]) else env.keyFile)
  }

  /**
   * main: validate the arguments, open input then output (the output is
   * truncated from then on, which empties an input or key file named by the
   * same path), obtain the key, run the chosen cipher. Every failure exits
   * with status 1; `written` is what the output file then holds (None when it
   * was never opened).
   */
  method Run(args: CryptArgs, env: CryptEnv) returns (status: int, written: Option<seq<byte>>)
    requires env.inputFile.Some? ==> IsChunking(env.chunks, |env.inputFile.value|)
    ensures status == 0 || status == 1
    ensures ValidateArgs(args).Failure? ==> status == 1 && written.None?
    ensures status == 0 <==>
      && ValidateArgs(args).Success?
      && env.inputFile.Some? && env.outputOpens
      && KeyFor(ValidateArgs(args).value.keySource, AfterTruncation(ValidateArgs(args).value, env)).Success?
    ensures status == 0 ==>
      var job := ValidateArgs(args).value;
      var files := AfterTruncation(job, env);
      var key := KeyFor(job.keySource, files).value;
      |key| >= 1 && written == Some(Crypt(job.algorithm, key, job.decrypt, files.inputFile.value))
    ensures status == 1 && ValidateArgs(args).Success? && env.inputFile.Some? && env.outputOpens ==> written == Some([])
    ensures ValidateArgs(args).Success? && ValidateArgs(args).value.input == ValidateArgs(args).value.output ==>
      written.None? || written == Some([])
    ensures ValidateArgs(args).Success? && ValidateArgs(args).value.keySource == KeyFile(ValidateArgs(args).value.output) ==>
      status == 1
  {
    var checked := ValidateArgs(args);
    if checked.Failure? {
      return 1, None;
    }
    var job := checked.value;
    if env.inputFile.None? {
      return 1, None;
    }
    if !env.outputOpens {
      return 1, None;
    }
    var files := AfterTruncation(job, env);
    var input := files.inputFile.value;
    var key := KeyFor(job.keySource, files);
    if key.Failure? {
      return 1, Some([]);
    }
    var keyBytes := key.value;
    var output;
    if job.algorithm == Xor {
      output := XorCrypt(input, files.chunks, keyBytes);
    } else {
      output := BitCrypt(input, files.chunks, keyBytes, job.decrypt);
    }
    if job.input == job.output {
      XorStreamAt(input, keyBytes, 0);
      BitStreamAt(input, Shift(keyBytes), job.decrypt);
    }
    return 0, Some(output);
  }
}
