/** The framed backup format: a magic prefix and one length-prefixed AEAD frame per chunk, with the frame
    number bound into the associated data. */
module Credstore {
  import opened Common

  const MAGIC: Bytes := [67, 86, 66, 75, 49]
  const CHUNK := 67108864
  const NONCE_BYTES := 12
  const U32_LIMIT := 4294967296

  /** Authenticated encryption under the key of one scope: nonce, plaintext or ciphertext, associated data. */
  datatype Aead = Aead(enc: (Bytes, Bytes, Bytes) -> Bytes, dec: (Bytes, Bytes, Bytes) -> Option<Bytes>)

  /** Decryption inverts encryption under the same nonce and associated data. */
  ghost predicate Inverts(k: Aead) {
    forall n, p, a :: k.dec(n, k.enc(n, p, a), a) == Some(p)
  }

  function Pack32(n: nat): (b: Bytes)
    requires n < U32_LIMIT
    ensures |b| == 4
  {
    [(n / 16777216) as Byte, (n / 65536 % 256) as Byte, (n / 256 % 256) as Byte, (n % 256) as Byte]
  }

  function Unpack32(b: Bytes): nat
    requires |b| == 4
  {
    b[0] as nat * 16777216 + b[1] as nat * 65536 + b[2] as nat * 256 + b[3] as nat
  }

  lemma UnpackPack(n: nat)
    requires n < U32_LIMIT
    ensures Unpack32(Pack32(n)) == n
  {
    var a := n / 256;
    var b := a / 256;
    assert n / 65536 == b && n / 16777216 == b / 256;
  }

  function Aad(index: nat): Bytes
    requires index < U32_LIMIT
  {
    [98, 97, 99, 107, 117, 112] + Pack32(index)
  }

  lemma AadIsInjective(i: nat, j: nat)
    requires i < U32_LIMIT && j < U32_LIMIT && i != j
    ensures Aad(i) != Aad(j)
  {
    UnpackPack(i);
    UnpackPack(j);
    assert Aad(i)[6..] == Pack32(i) && Aad(j)[6..] == Pack32(j);
  }

  /** How many frames `n` bytes take: one even for none. */
  function FrameCount(n: nat): (c: nat)
    ensures c >= 1
    ensures (c - 1) * CHUNK < Max(n, 1) <= c * CHUNK
  {
    if n == 0 then 1 else (n + CHUNK - 1) / CHUNK
  }

  /** The part of the data in frame `i`. */
  function ChunkAt(data: Bytes, i: nat): Bytes
    requires i < FrameCount(|data|)
  {
    data[i * CHUNK..Min((i + 1) * CHUNK, |data|)]
  }

  function Sealed(k: Aead, nonces: nat -> Bytes, data: Bytes, i: nat): Bytes
    requires i < FrameCount(|data|) && i < U32_LIMIT
  {
    nonces(i) + k.enc(nonces(i), ChunkAt(data, i), Aad(i))
  }

  /** The frame number and the frame's length both fit four bytes; otherwise packing them raises. */
  predicate Fits(k: Aead, nonces: nat -> Bytes, data: Bytes, i: nat)
    requires i < FrameCount(|data|)
  {
    i < U32_LIMIT && |Sealed(k, nonces, data, i)| < U32_LIMIT
  }

  function FrameAt(k: Aead, nonces: nat -> Bytes, data: Bytes, i: nat): Bytes
    requires i < FrameCount(|data|) && Fits(k, nonces, data, i)
  {
    Pack32(|Sealed(k, nonces, data, i)|) + Sealed(k, nonces, data, i)
  }

  /** Output so far, followed by the rest if there is one. */
  function Prepend(out: Bytes, rest: Option<Bytes>): Option<Bytes> {
    if rest.None? then None else Some(out + rest.value)
  }

  /** The frames from number `i` on. */
  function EncryptFrom(k: Aead, nonces: nat -> Bytes, data: Bytes, i: nat): Option<Bytes>
    requires i <= FrameCount(|data|)
    decreases FrameCount(|data|) - i
  {
    if i == FrameCount(|data|) then Some([])
    else if !Fits(k, nonces, data, i) then None
    else Prepend(FrameAt(k, nonces, data, i), EncryptFrom(k, nonces, data, i + 1))
  }

  function Encrypt(k: Aead, nonces: nat -> Bytes, data: Bytes): Option<Bytes> {
    Prepend(MAGIC, EncryptFrom(k, nonces, data, 0))
  }

  function Clamp(i: int, n: nat): (j: nat)
    ensures j <= n
  {
    if i < 0 then 0 else if i > n then n else i
  }

  /** Opens one frame: twelve bytes of nonce, then the ciphertext. */
  function OpenFrame(k: Aead, frame: Bytes, index: nat): Option<Bytes> {
    var n := Clamp(NONCE_BYTES, |frame|);
    if index >= U32_LIMIT then None else k.dec(frame[..n], frame[n..], Aad(index))
  }

  /** Parses frames from position `pos` on, numbering them from `index`. */
  function DecryptFrom(k: Aead, blob: Bytes, pos: nat, index: nat): Option<Bytes>
    decreases |blob| - pos
  {
    if pos >= |blob| then Some([])
    else if pos + 4 > |blob| then None
    else
      var flen := Unpack32(blob[pos..pos + 4]);
      var p := OpenFrame(k, blob[pos + 4..Clamp(pos + 4 + flen, |blob|)], index);
      if p.None? then None else Prepend(p.value, DecryptFrom(k, blob, pos + 4 + flen, index + 1))
  }

  /** Decryption of the framed format, or of the older single-shot one. */
  function Decrypt(k: Aead, blob: Bytes): Option<Bytes> {
    if blob[..Clamp(|MAGIC|, |blob|)] == MAGIC then DecryptFrom(k, blob, |MAGIC|, 0)
    else
      var n := Clamp(NONCE_BYTES, |blob|);
      k.dec(blob[..n], blob[n..], [98, 97, 99, 107, 117, 112])
  }

  /* ---------- the loops ---------- */

  lemma PrependTwice(a: Bytes, b: Bytes, rest: Option<Bytes>)
    ensures Prepend(a, Prepend(b, rest)) == Prepend(a + b, rest)
    ensures Prepend([], rest) == rest
  {
    if rest.Some? {
      assert a + (b + rest.value) == a + b + rest.value;
      assert [] + rest.value == rest.value;
    }
  }

  method EncryptBytes(k: Aead, nonces: nat -> Bytes, data: Bytes) returns (blob: Option<Bytes>)
    ensures blob == Encrypt(k, nonces, data)
  {
    var out := MAGIC;
    var index, off := 0, 0;
    while off < Max(|data|, 1)
      invariant 0 <= index <= FrameCount(|data|) && off == index * CHUNK
      invariant Encrypt(k, nonces, data) == Prepend(out, EncryptFrom(k, nonces, data, index))
      decreases FrameCount(|data|) - index
    {
      var chunk := data[off..Min(off + CHUNK, |data|)];
      assert chunk == ChunkAt(data, index);
      if index >= U32_LIMIT {
        return None;
      }
      var frame := nonces(index) + k.enc(nonces(index), chunk, Aad(index));
      if |frame| >= U32_LIMIT {
        return None;
      }
      PrependTwice(out, Pack32(|frame|) + frame, EncryptFrom(k, nonces, data, index + 1));
      out := out + (Pack32(|frame|) + frame);
      index, off := index + 1, off + CHUNK;
    }
    assert out + [] == out;
    blob := Some(out);
  }

  method DecryptBytes(k: Aead, blob: Bytes) returns (data: Option<Bytes>)
    ensures data == Decrypt(k, blob)
  {
    hide OpenFrame, Unpack32;
    if blob[..Clamp(|MAGIC|, |blob|)] != MAGIC {
      var n := Clamp(NONCE_BYTES, |blob|);
      return k.dec(blob[..n], blob[n..], [98, 97, 99, 107, 117, 112]);
    }
    var out: Bytes := [];
    var pos, index := |MAGIC|, 0;
    PrependTwice([], [], DecryptFrom(k, blob, pos, index));
    while pos < |blob|
      invariant |MAGIC| <= pos && 0 <= index
      invariant Decrypt(k, blob) == Prepend(out, DecryptFrom(k, blob, pos, index))
      decreases |blob| - pos
    {
      if pos + 4 > |blob| {
        return None;
      }
      var flen := Unpack32(blob[pos..pos + 4]);
      var frame := blob[pos + 4..Clamp(pos + 4 + flen, |blob|)];
      var p := OpenFrame(k, frame, index);
      if p.None? {
        return None;
      }
      PrependTwice(out, p.value, DecryptFrom(k, blob, pos + 4 + flen, index + 1));
      out := out + p.value;
      pos, index := pos + 4 + flen, index + 1;
    }
    assert out + [] == out;
    data := Some(out);
  }

  /* ---------- round trips ---------- */

  /** Frames of one encryption put together in any selection and order. */
  function Assemble(k: Aead, nonces: nat -> Bytes, data: Bytes, sel: seq<nat>): Bytes
    requires forall i :: 0 <= i < |sel| ==> sel[i] < FrameCount(|data|) && Fits(k, nonces, data, sel[i])
  {
    if sel == [] then [] else FrameAt(k, nonces, data, sel[0]) + Assemble(k, nonces, data, sel[1..])
  }

  /** What reading such a selection gives when frames are numbered from `index`. */
  function Expected(data: Bytes, sel: seq<nat>, index: nat): Option<Bytes>
    requires forall i :: 0 <= i < |sel| ==> sel[i] < FrameCount(|data|)
  {
    if sel == [] then Some([])
    else if sel[0] != index then None
    else Prepend(ChunkAt(data, sel[0]), Expected(data, sel[1..], index + 1))
  }

  ghost predicate GoodNonces(nonces: nat -> Bytes) {
    forall i :: |nonces(i)| == NONCE_BYTES
  }

  /** The ciphertexts of the frames of `data` do not open under the associated data of another number below `n`. */
  ghost predicate BindsNumbers(k: Aead, nonces: nat -> Bytes, data: Bytes, n: nat) {
    forall i: nat, j: nat :: i < FrameCount(|data|) && i < U32_LIMIT && j < n && j < U32_LIMIT && Aad(i) != Aad(j) ==>
      k.dec(nonces(i), k.enc(nonces(i), ChunkAt(data, i), Aad(i)), Aad(j)) == None
  }

  /** Parsing at a frame: its length, its sealed part, and where the next frame starts. */
  lemma FrameLayout(pre: Bytes, sealed: Bytes, rest: Bytes)
    requires |sealed| < U32_LIMIT
    ensures var frame := Pack32(|sealed|) + sealed;
            var blob := pre + (frame + rest);
            && blob == (pre + frame) + rest
            && |pre| + 4 <= |blob|
            && Unpack32(blob[|pre|..|pre| + 4]) == |sealed|
            && |pre| + 4 + |sealed| == |pre + frame| <= |blob|
            && blob[|pre| + 4..|pre| + 4 + |sealed|] == sealed
  {
    var frame := Pack32(|sealed|) + sealed;
    var blob := pre + (frame + rest);
    UnpackPack(|sealed|);
    assert blob[|pre|..|pre| + 4] == Pack32(|sealed|);
    assert blob[|pre| + 4..|pre| + 4 + |sealed|] == sealed;
  }

  /** A frame opens under its own number, and under no other when the AEAD binds the number. */
  lemma FrameOpens(k: Aead, nonces: nat -> Bytes, data: Bytes, i: nat, index: nat, n: nat)
    requires Inverts(k) && GoodNonces(nonces) && i < FrameCount(|data|) && Fits(k, nonces, data, i)
    requires i == index || (BindsNumbers(k, nonces, data, n) && index < n)
    ensures OpenFrame(k, Sealed(k, nonces, data, i), index) == if i == index then Some(ChunkAt(data, i)) else None
  {
    var sealed := Sealed(k, nonces, data, i);
    assert sealed[..NONCE_BYTES] == nonces(i) && sealed[NONCE_BYTES..] == k.enc(nonces(i), ChunkAt(data, i), Aad(i));
    if i != index && index < U32_LIMIT {
      AadIsInjective(i, index);
    }
  }

  /** Reading on at the frame with the data's chunk `i`. */
  lemma DecryptOneFrame(k: Aead, nonces: nat -> Bytes, data: Bytes, i: nat, pre: Bytes, rest: Bytes, index: nat, n: nat)
    requires Inverts(k) && GoodNonces(nonces) && i < FrameCount(|data|) && Fits(k, nonces, data, i)
    requires i == index || (BindsNumbers(k, nonces, data, n) && index < n)
    ensures var frame := FrameAt(k, nonces, data, i);
            DecryptFrom(k, pre + (frame + rest), |pre|, index)
              == if i != index then None
                 else Prepend(ChunkAt(data, i), DecryptFrom(k, (pre + frame) + rest, |pre + frame|, index + 1))
  {
    FrameOpens(k, nonces, data, i, index, n);
    var sealed := Sealed(k, nonces, data, i);
    FrameLayout(pre, sealed, rest);
    hide BindsNumbers, Inverts, GoodNonces, OpenFrame, Pack32, Unpack32, ChunkAt, Sealed, FrameCount;
  }

  lemma {:induction false} DecryptAssembled(k: Aead, nonces: nat -> Bytes, data: Bytes, sel: seq<nat>, pre: Bytes,
                                            index: nat, n: nat)
    requires Inverts(k) && GoodNonces(nonces)
    requires forall i :: 0 <= i < |sel| ==> sel[i] < FrameCount(|data|) && Fits(k, nonces, data, sel[i])
    requires || (BindsNumbers(k, nonces, data, n) && index + |sel| <= n)
             || forall j :: 0 <= j < |sel| ==> sel[j] == index + j
    ensures DecryptFrom(k, pre + Assemble(k, nonces, data, sel), |pre|, index) == Expected(data, sel, index)
    decreases |sel|
  {
    hide BindsNumbers, Inverts, GoodNonces, OpenFrame, FrameAt, ChunkAt, Fits, FrameCount;
    if sel != [] {
      var rest := Assemble(k, nonces, data, sel[1..]);
      DecryptOneFrame(k, nonces, data, sel[0], pre, rest, index, n);
      if sel[0] == index {
        assert forall j :: 0 <= j < |sel[1..]| ==> sel[1..][j] == sel[j + 1];
        DecryptAssembled(k, nonces, data, sel[1..], pre + FrameAt(k, nonces, data, sel[0]), index + 1, n);
      }
    } else {
      assert pre + [] == pre;
    }
  }

  function Upto(from: nat, to: nat): (s: seq<nat>)
    requires from <= to
    ensures |s| == to - from && forall j :: 0 <= j < |s| ==> s[j] == from + j
  {
    seq(to - from, (j: nat) => from + j)
  }

  lemma {:induction false} ExpectedInOrder(data: Bytes, from: nat, n: nat)
    requires from + n <= FrameCount(|data|)
    ensures Expected(data, Upto(from, from + n), from) ==
            Some(data[Min(from * CHUNK, |data|)..Min((from + n) * CHUNK, |data|)])
    decreases n
  {
    if n > 0 {
      assert Upto(from, from + n)[1..] == Upto(from + 1, from + n);
      ExpectedInOrder(data, from + 1, n - 1);
      var a, b, c := from * CHUNK, Min((from + 1) * CHUNK, |data|), Min((from + n) * CHUNK, |data|);
      assert a <= b <= c;
      assert data[a..b] + data[b..c] == data[a..c];
    } else {
      var a := Min(from * CHUNK, |data|);
      assert data[a..a] == [];
    }
  }

  lemma {:induction false} ExpectedOnlyInOrder(data: Bytes, sel: seq<nat>, index: nat)
    requires forall i :: 0 <= i < |sel| ==> sel[i] < FrameCount(|data|)
    ensures Expected(data, sel, index).Some? <==> sel == Upto(index, index + |sel|)
    decreases |sel|
  {
    if sel != [] {
      ExpectedOnlyInOrder(data, sel[1..], index + 1);
      assert Upto(index, index + |sel|)[1..] == Upto(index + 1, index + |sel|);
    }
  }

  lemma {:induction false} EncryptIsAssembled(k: Aead, nonces: nat -> Bytes, data: Bytes, i: nat)
    requires i <= FrameCount(|data|)
    ensures EncryptFrom(k, nonces, data, i).Some? <==>
            forall j :: i <= j < FrameCount(|data|) ==> Fits(k, nonces, data, j)
    ensures EncryptFrom(k, nonces, data, i).Some? ==>
              EncryptFrom(k, nonces, data, i).value == Assemble(k, nonces, data, Upto(i, FrameCount(|data|)))
    decreases FrameCount(|data|) - i
  {
    if i < FrameCount(|data|) {
      EncryptIsAssembled(k, nonces, data, i + 1);
      assert Upto(i, FrameCount(|data|))[1..] == Upto(i + 1, FrameCount(|data|));
    }
  }

  /** A blob cut at a frame boundary: the first `n` frames decrypt to the data they hold, given only that the
      cipher inverts. */
  lemma FirstFramesDecrypt(k: Aead, nonces: nat -> Bytes, data: Bytes, n: nat)
    requires Inverts(k) && GoodNonces(nonces) && Encrypt(k, nonces, data).Some? && n <= FrameCount(|data|)
    ensures forall i :: 0 <= i < n ==> Fits(k, nonces, data, i)
    ensures var blob := MAGIC + Assemble(k, nonces, data, Upto(0, n));
            Decrypt(k, blob) == Some(data[..Min(n * CHUNK, |data|)])
  {
    EncryptIsAssembled(k, nonces, data, 0);
    DecryptAssembled(k, nonces, data, Upto(0, n), MAGIC, 0, n);
    ExpectedInOrder(data, 0, n);
    var blob := MAGIC + Assemble(k, nonces, data, Upto(0, n));
    assert blob[..|MAGIC|] == MAGIC;
  }

  /** The round trip, for every byte string, empty ones and exact multiples of the chunk included. */
  lemma DecryptEncrypt(k: Aead, nonces: nat -> Bytes, data: Bytes)
    requires Inverts(k) && GoodNonces(nonces) && Encrypt(k, nonces, data).Some?
    ensures Decrypt(k, Encrypt(k, nonces, data).value) == Some(data)
  {
    EncryptIsAssembled(k, nonces, data, 0);
    FirstFramesDecrypt(k, nonces, data, FrameCount(|data|));
    assert data[..|data|] == data;
  }

  /** Any selection of the frames of one encryption, in any order and with repetitions, decrypts exactly
      when it is the first frames in their order, and then to exactly the data they hold. So frames
      cannot be swapped, dropped in the middle or duplicated; only the end can be cut off. */
  lemma OnlyAnInitialSegmentDecrypts(k: Aead, nonces: nat -> Bytes, data: Bytes, sel: seq<nat>)
    requires Inverts(k) && BindsNumbers(k, nonces, data, |sel|) && GoodNonces(nonces) && Encrypt(k, nonces, data).Some?
    requires forall i :: 0 <= i < |sel| ==> sel[i] < FrameCount(|data|)
    ensures forall i :: 0 <= i < |sel| ==> Fits(k, nonces, data, sel[i])
    ensures var blob := MAGIC + Assemble(k, nonces, data, sel);
            && (Decrypt(k, blob).Some? <==> sel == Upto(0, |sel|))
            && (Decrypt(k, blob).Some? ==> Decrypt(k, blob) == Some(data[..Min(|sel| * CHUNK, |data|)]))
  {
    EncryptIsAssembled(k, nonces, data, 0);
    DecryptAssembled(k, nonces, data, sel, MAGIC, 0, |sel|);
    ExpectedOnlyInOrder(data, sel, 0);
    var blob := MAGIC + Assemble(k, nonces, data, sel);
    assert blob[..|MAGIC|] == MAGIC;
    if sel == Upto(0, |sel|) {
      assert sel != [] ==> sel[|sel| - 1] == |sel| - 1;
      ExpectedInOrder(data, 0, |sel|);
    }
  }

  /* ---------- the bytes on disk ---------- */

  /** The four bytes are a number, the most significant one first. */
  predicate IsBigEndian(b: Bytes, n: nat) {
    |b| == 4 && ((b[0] as nat * 256 + b[1] as nat) * 256 + b[2] as nat) * 256 + b[3] as nat == n
  }

  /** The text "backup". */
  const BACKUP: Bytes := [98, 97, 99, 107, 117, 112]

  lemma PackIsBigEndian(n: nat)
    requires n < U32_LIMIT
    ensures IsBigEndian(Pack32(n), n)
  {
    UnpackPack(n);
  }

  /** Each frame is the length of what follows, the nonce, and its chunk of the data encrypted under the text
      "backup" with the frame's number; both numbers in four bytes, the most significant first. */
  lemma FrameIs(k: Aead, nonces: nat -> Bytes, data: Bytes, i: nat)
    requires i < FrameCount(|data|) && Fits(k, nonces, data, i)
    ensures var f := FrameAt(k, nonces, data, i);
            && |f| >= 4 && IsBigEndian(f[..4], |f| - 4)
            && exists number :: IsBigEndian(number, i)
                 && f[4..] == nonces(i) + k.enc(nonces(i), data[i * CHUNK..Min(i * CHUNK + CHUNK, |data|)],
                                                BACKUP + number)
  {
    var number := Pack32(i);
    PackIsBigEndian(i);
    var sealed := Sealed(k, nonces, data, i);
    var length := Pack32(|sealed|);
    PackIsBigEndian(|sealed|);
    assert Aad(i) == BACKUP + number;
    var f := FrameAt(k, nonces, data, i);
    assert f[..4] == length && f[4..] == sealed;
  }

  /** Data of up to one chunk, the empty data included, is the prefix and a single frame. */
  lemma SmallDataIsOneFrame(k: Aead, nonces: nat -> Bytes, data: Bytes)
    requires |data| <= CHUNK && Encrypt(k, nonces, data).Some?
    ensures var f := Encrypt(k, nonces, data).value;
            && |f| >= 9 && f[..5] == [67, 86, 66, 75, 49] && IsBigEndian(f[5..9], |f| - 9)
            && f[9..] == nonces(0) + k.enc(nonces(0), data, BACKUP + [0, 0, 0, 0])
  {
    assert FrameCount(|data|) == 1;
    assert data[0..Min(CHUNK, |data|)] == data && Pack32(0) == [0, 0, 0, 0];
    var sealed := Sealed(k, nonces, data, 0);
    assert Aad(0) == BACKUP + [0, 0, 0, 0];
    assert sealed == nonces(0) + k.enc(nonces(0), data, BACKUP + [0, 0, 0, 0]);
    PackIsBigEndian(|sealed|);
    var length := Pack32(|sealed|);
    assert EncryptFrom(k, nonces, data, 1) == Some([]);
    assert FrameAt(k, nonces, data, 0) + [] == length + sealed;
    var f := Encrypt(k, nonces, data).value;
    assert f[..5] == MAGIC && f[5..9] == length && f[9..] == sealed;
  }

  /** A blob of the older format, without the prefix, still decrypts. */
  lemma OlderBlobDecrypts(k: Aead, nonce: Bytes, data: Bytes)
    requires Inverts(k) && |nonce| == NONCE_BYTES && nonce[..5] != [67, 86, 66, 75, 49]
    ensures Decrypt(k, nonce + k.enc(nonce, data, BACKUP)) == Some(data)
  {
    var blob := nonce + k.enc(nonce, data, BACKUP);
    assert blob[..5] == nonce[..5];
    assert blob[..NONCE_BYTES] == nonce && blob[NONCE_BYTES..] == k.enc(nonce, data, BACKUP);
  }

  lemma {:induction false} FailsBehind(k: Aead, nonces: nat -> Bytes, data: Bytes, sel: seq<nat>, pre: Bytes,
                                       rest: Bytes, index: nat)
    requires Inverts(k) && GoodNonces(nonces) && 1 <= |rest| < 4
    requires forall i :: 0 <= i < |sel| ==> sel[i] < FrameCount(|data|) && Fits(k, nonces, data, sel[i])
    requires forall j :: 0 <= j < |sel| ==> sel[j] == index + j
    ensures DecryptFrom(k, pre + (Assemble(k, nonces, data, sel) + rest), |pre|, index) == None
    decreases |sel|
  {
    hide Inverts, GoodNonces, OpenFrame, FrameAt, ChunkAt, Fits, FrameCount;
    if sel == [] {
      assert [] + rest == rest;
    } else {
      var frame := FrameAt(k, nonces, data, sel[0]);
      var more := Assemble(k, nonces, data, sel[1..]) + rest;
      assert Assemble(k, nonces, data, sel) + rest == frame + more;
      DecryptOneFrame(k, nonces, data, sel[0], pre, more, index, 0);
      assert forall j :: 0 <= j < |sel[1..]| ==> sel[1..][j] == sel[j + 1];
      FailsBehind(k, nonces, data, sel[1..], pre + frame, rest, index + 1);
    }
  }

  /** A blob that ends in part of a length, behind any number of whole frames, does not decrypt. */
  lemma PartOfLengthFails(k: Aead, nonces: nat -> Bytes, data: Bytes, n: nat, rest: Bytes)
    requires Inverts(k) && GoodNonces(nonces) && Encrypt(k, nonces, data).Some? && n <= FrameCount(|data|)
    requires 1 <= |rest| < 4
    ensures forall i :: 0 <= i < n ==> Fits(k, nonces, data, i)
    ensures Decrypt(k, MAGIC + (Assemble(k, nonces, data, Upto(0, n)) + rest)) == None
  {
    EncryptIsAssembled(k, nonces, data, 0);
    FailsBehind(k, nonces, data, Upto(0, n), MAGIC, rest, 0);
    var blob := MAGIC + (Assemble(k, nonces, data, Upto(0, n)) + rest);
    assert blob[..|MAGIC|] == MAGIC;
  }

  /** A blob that stops within its first frame, or where it should begin: what there is of the frame goes to the cipher,
      whatever the length before it promises. */
  lemma CutFrameGoesToTheCipher(k: Aead, length: Bytes, n: nat, part: Bytes)
    requires IsBigEndian(length, n) && |part| <= n
    ensures Decrypt(k, MAGIC + (length + part)) ==
            k.dec(part[..Min(NONCE_BYTES, |part|)], part[Min(NONCE_BYTES, |part|)..], BACKUP + [0, 0, 0, 0])
  {
    var blob := MAGIC + (length + part);
    assert blob[..5] == MAGIC && blob[5..9] == length && blob[9..] == part;
    assert Pack32(0) == [0, 0, 0, 0] && Aad(0) == BACKUP + [0, 0, 0, 0];
    assert blob[9..|blob|] == part;
    var p := OpenFrame(k, part, 0);
    assert DecryptFrom(k, blob, 9 + n, 1) == Some([]);
    if p.Some? {
      assert p.value + [] == p.value;
    }
  }
}
