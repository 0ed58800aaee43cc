/** Cipher block chaining over AES-128 with the padding of section 6.3 of RFC 5652. */
module Cbc {
  import opened Options
  import opened Bytes
  import opened AesField
  import opened Aes
  import opened AesLoops

  // ---------- padding ----------

  lemma SmallByte(n: nat)
    requires n <= 16
    ensures ToNat(ToByte(n)) == n
  {
    assert n == 0 || n == 1 || n == 2 || n == 3 || n == 4 || n == 5 || n == 6 || n == 7 || n == 8 || n == 9 ||
           n == 10 || n == 11 || n == 12 || n == 13 || n == 14 || n == 15 || n == 16;
  }

  function PadLength(len: nat): (p: nat)
    ensures 1 <= p <= 16 && (len + p) % 16 == 0
  {
    16 - len % 16
  }

  /** How many blocks a padded message fills. */
  function Blocks(len: nat): (b: nat)
    ensures b > 0 && 16 * b == len + PadLength(len)
  {
    len / 16 + 1
  }

  /** The message followed by p bytes of value p. */
  function Pad(m: seq<Byte>): (p: seq<Byte>)
    ensures |p| == 16 * Blocks(|m|)
  {
    m + seq(PadLength(|m|), _ => ToByte(PadLength(|m|)))
  }

  /** The last byte's value is between 1 and 16 and fills that many bytes at the end. */
  predicate WellPadded(p: seq<Byte>)
    requires |p| >= 16
  {
    var n := ToNat(p[|p| - 1]);
    1 <= n <= 16 && forall j :: |p| - n <= j < |p| ==> ToNat(p[j]) == n
  }

  function Unpad(p: seq<Byte>): Option<seq<Byte>>
    requires |p| >= 16
  {
    if WellPadded(p) then Some(p[..|p| - ToNat(p[|p| - 1])]) else None
  }

  /** Padding can always be taken off again. */
  lemma UnpadPad(m: seq<Byte>)
    ensures |Pad(m)| >= 16 && Unpad(Pad(m)) == Some(m)
  {
    hide ToByte, ToNat;
    SmallByte(PadLength(|m|));
  }

  lemma ByteBack(b: Byte)
    ensures ToByte(ToNat(b)) == b
  {
  }

  /** The padding check accepts exactly the padded messages, and gives back the message. */
  lemma UnpadExactly(p: seq<Byte>, m: seq<Byte>)
    requires |p| >= 16 && |p| % 16 == 0
    ensures Unpad(p) == Some(m) <==> p == Pad(m)
  {
    hide ToByte, ToNat;
    if p == Pad(m) {
      UnpadPad(m);
    } else if Unpad(p) == Some(m) {
      var n := ToNat(p[|p| - 1]);
      PadLengthIs(|p|, n);
      forall j | |m| <= j < |p| ensures p[j] == ToByte(n) {
        ByteBack(p[j]);
      }
    }
  }

  lemma PadLengthIs(len: nat, n: nat)
    requires len % 16 == 0 && 1 <= n <= 16 && n <= len
    ensures PadLength(len - n) == n
  {
  }

  // ---------- chaining ----------

  function XorBlocks(a: Block, b: Block): Block { AddRoundKey(a, b) }

  /** Block n of a message. */
  function Slice(p: seq<Byte>, n: nat): Block
    requires 16 * n + 16 <= |p|
  {
    p[16 * n..16 * n + 16]
  }

  /** The ciphertext block after n message blocks; the initialisation vector before the first. */
  function Link(key: Block, iv: Block, p: seq<Byte>, n: nat): Block
    requires 16 * n <= |p|
  {
    if n == 0 then iv else Encrypt(key, XorBlocks(Slice(p, n - 1), Link(key, iv, p, n - 1)))
  }

  /** The first n ciphertext blocks. */
  function Chained(key: Block, iv: Block, p: seq<Byte>, n: nat): (c: seq<Byte>)
    requires 16 * n <= |p|
    ensures |c| == 16 * n
  {
    if n == 0 then [] else Chained(key, iv, p, n - 1) + Link(key, iv, p, n)
  }

  /** The ciphertext block before block n. */
  function Previous(iv: Block, c: seq<Byte>, n: nat): Block
    requires 16 * n <= |c|
  {
    if n == 0 then iv else Slice(c, n - 1)
  }

  /** The first n blocks recovered from a ciphertext. */
  function Unchained(key: Block, iv: Block, c: seq<Byte>, n: nat): (p: seq<Byte>)
    requires 16 * n <= |c|
    ensures |p| == 16 * n
  {
    if n == 0 then []
    else Unchained(key, iv, c, n - 1) + XorBlocks(Decrypt(key, Slice(c, n - 1)), Previous(iv, c, n - 1))
  }

  lemma {:induction false} ChainedSlice(key: Block, iv: Block, p: seq<Byte>, total: nat, n: nat)
    requires 16 * total <= |p| && n < total
    ensures Slice(Chained(key, iv, p, total), n) == Link(key, iv, p, n + 1)
  {
    hide Encrypt, XorBlocks;
    if n < total - 1 {
      ChainedSlice(key, iv, p, total - 1, n);
      assert Slice(Chained(key, iv, p, total), n) == Slice(Chained(key, iv, p, total - 1), n);
    }
  }

  lemma {:induction false} UnchainedChained(key: Block, iv: Block, p: seq<Byte>, total: nat, n: nat)
    requires 16 * total <= |p| && n <= total
    ensures Unchained(key, iv, Chained(key, iv, p, total), n) == p[..16 * n]
  {
    hide Encrypt, Decrypt, XorBlocks, Slice;
    if n > 0 {
      var c := Chained(key, iv, p, total);
      UnchainedChained(key, iv, p, total, n - 1);
      ChainedSlice(key, iv, p, total, n - 1);
      var before := Link(key, iv, p, n - 1);
      if n > 1 {
        ChainedSlice(key, iv, p, total, n - 2);
      }
      DecryptEncrypt(key, XorBlocks(Slice(p, n - 1), before));
      XorBlocksTwice(Slice(p, n - 1), before);
      Prefix(p, n);
    }
  }

  lemma XorBlocksTwice(a: Block, b: Block)
    ensures XorBlocks(XorBlocks(a, b), b) == a
  {
    hide AddRoundKey;
    AddRoundKeyInverse(a, b);
  }

  lemma Prefix(p: seq<Byte>, n: nat)
    requires n > 0 && 16 * n <= |p|
    ensures p[..16 * n] == p[..16 * (n - 1)] + Slice(p, n - 1)
  {
  }

  // ---------- sealing a message ----------

  /** What encryption makes of a message. */
  function Sealed(key: Block, iv: Block, m: seq<Byte>): (c: seq<Byte>)
    ensures |c| == 16 * Blocks(|m|)
  {
    Chained(key, iv, Pad(m), Blocks(|m|))
  }

  /** What decryption makes of a ciphertext. */
  function Opened(key: Block, iv: Block, c: seq<Byte>): Option<seq<Byte>> {
    if |c| == 0 || |c| % 16 != 0 then None else Unpad(Unchained(key, iv, c, |c| / 16))
  }

  /** For every key, vector and message, opening a sealed message gives exactly that message. */
  lemma OpenSealed(key: Block, iv: Block, m: seq<Byte>)
    ensures Opened(key, iv, Sealed(key, iv, m)) == Some(m)
  {
    hide Encrypt, Decrypt, Chained, Unchained, Pad, Unpad;
    var p := Pad(m);
    UnpadPad(m);
    UnchainedChained(key, iv, p, Blocks(|m|), Blocks(|m|));
    assert p[..16 * Blocks(|m|)] == p;
  }

  /** Byte i of the padded message: past its end each byte is the number of bytes added. */
  function PaddedByte(m: seq<Byte>, i: nat): Byte {
    if i < |m| then m[i] else ToByte(16 - |m| % 16)
  }

  /** Block n of c is the encryption of the sum of block n of the message and the block before. */
  ghost predicate LinkedBlock(key: Block, iv: Block, m: seq<Byte>, c: seq<Byte>, n: nat)
    requires 16 * n + 16 <= |c|
  {
    exists x: Block ::
      && c[16 * n..16 * n + 16] == Encrypt(key, x)
      && forall k :: 0 <= k < 16 ==>
           x[k] == Xor(PaddedByte(m, 16 * n + k), if n == 0 then iv[k] else c[16 * n - 16 + k])
  }

  /** The sealed message is the only sequence whose blocks are linked to the message and each other. */
  lemma SealedExactly(key: Block, iv: Block, m: seq<Byte>, c: seq<Byte>)
    ensures c == Sealed(key, iv, m) <==>
            |c| == 16 * (|m| / 16) + 16 && forall n :: 0 <= n < |c| / 16 ==> LinkedBlock(key, iv, m, c, n)
  {
    hide Encrypt, XorBlocks, Pad, Xor, LinkedBlock, PaddedByte, Chained, Link, Sealed;
    SealedIs(key, iv, m);
    var s := Sealed(key, iv, m);
    if |c| == |s| && forall n :: 0 <= n < |c| / 16 ==> LinkedBlock(key, iv, m, c, n) {
      SealedUnique(key, iv, m, c, |c| / 16);
      assert c == c[..16 * (|c| / 16)];
    }
  }

  lemma InputIs(key: Block, iv: Block, m: seq<Byte>, n: nat, before: Block, x: Block)
    requires n <= |m| / 16 && before == Link(key, iv, Pad(m), n)
    requires forall k :: 0 <= k < 16 ==> x[k] == Xor(PaddedByte(m, 16 * n + k), before[k])
    ensures Link(key, iv, Pad(m), n + 1) == Encrypt(key, x)
  {
    hide Encrypt, Xor;
    var p := Pad(m);
    assert forall k :: 0 <= k < 16 ==> Slice(p, n)[k] == PaddedByte(m, 16 * n + k);
    assert x == XorBlocks(Slice(p, n), before);
  }

  lemma SealedBlock(key: Block, iv: Block, m: seq<Byte>, n: nat)
    requires n <= |m| / 16
    ensures Slice(Sealed(key, iv, m), n) == Link(key, iv, Pad(m), n + 1)
  {
    hide Encrypt, Link, Pad, Chained;
    ChainedSlice(key, iv, Pad(m), Blocks(|m|), n);
  }

  lemma SealedIs(key: Block, iv: Block, m: seq<Byte>)
    ensures var c := Sealed(key, iv, m);
            |c| == 16 * (|m| / 16) + 16 && forall n :: 0 <= n < |c| / 16 ==> LinkedBlock(key, iv, m, c, n)
  {
    hide Encrypt, Pad, Xor, PaddedByte, Chained, Link, Sealed;
    var c := Sealed(key, iv, m);
    forall n | 0 <= n < |c| / 16 ensures LinkedBlock(key, iv, m, c, n) {
      var before := Link(key, iv, Pad(m), n);
      BeforeIs(key, iv, m, n);
      var x: Block := seq(16, k requires 0 <= k < 16 => Xor(PaddedByte(m, 16 * n + k), before[k]));
      InputIs(key, iv, m, n, before, x);
      SealedBlock(key, iv, m, n);
    }
  }

  lemma BeforeIs(key: Block, iv: Block, m: seq<Byte>, n: nat)
    requires n <= |m| / 16
    ensures var c, before := Sealed(key, iv, m), Link(key, iv, Pad(m), n);
            forall k :: 0 <= k < 16 ==> before[k] == if n == 0 then iv[k] else c[16 * n - 16 + k]
  {
    hide Encrypt, Pad, Chained, Sealed, XorBlocks;
    if n > 0 {
      SealedBlock(key, iv, m, n - 1);
    }
  }

  lemma {:induction false} SealedUnique(key: Block, iv: Block, m: seq<Byte>, c: seq<Byte>, n: nat)
    requires |c| == 16 * (|m| / 16) + 16 && n <= |c| / 16
    requires forall i :: 0 <= i < |c| / 16 ==> LinkedBlock(key, iv, m, c, i)
    ensures c[..16 * n] == Sealed(key, iv, m)[..16 * n]
  {
    hide Encrypt, Pad, Xor, PaddedByte, Chained, Link, Sealed;
    if n > 0 {
      var s := Sealed(key, iv, m);
      SealedUnique(key, iv, m, c, n - 1);
      BeforeIs(key, iv, m, n - 1);
      var before := Link(key, iv, Pad(m), n - 1);
      assert n > 1 ==> forall i :: 16 * n - 32 <= i < 16 * n - 16 ==> c[i] == c[..16 * n - 16][i];
      assert LinkedBlock(key, iv, m, c, n - 1);
      var x: Block :| c[16 * n - 16..16 * n] == Encrypt(key, x) && forall k :: 0 <= k < 16 ==>
        x[k] == Xor(PaddedByte(m, 16 * n - 16 + k), if n == 1 then iv[k] else c[16 * n - 32 + k]);
      InputIs(key, iv, m, n - 1, before, x);
      SealedBlock(key, iv, m, n - 1);
      assert c[..16 * n] == c[..16 * n - 16] + c[16 * n - 16..16 * n];
      assert s[..16 * n] == s[..16 * n - 16] + Slice(s, n - 1);
    }
  }

  // ---------- the kernel's loops ----------

  /** Byte j of the padded message, as the code picks it. */
  lemma PadByte(m: seq<Byte>, j: nat)
    requires j < |Pad(m)|
    ensures Pad(m)[j] == if j < |m| then m[j] else ToByte(PadLength(|m|))
  {
  }

  method XorInto(m: seq<Byte>, i: nat, prev: Block, ghost n: nat) returns (blk: Block)
    requires i == 16 * n && i + 16 <= |Pad(m)|
    ensures blk == XorBlocks(Slice(Pad(m), n), prev)
  {
    hide Xor, ToByte, Pad, PadLength;
    blk := seq(16, _ => 0);
    for k := 0 to 16
      invariant forall j :: 0 <= j < k ==> blk[j] == Xor(Pad(m)[i + j], prev[j])
    {
      PadByte(m, i + k);
      var b := if i + k < |m| then m[i + k] else ToByte(PadLength(|m|));
      blk := blk[k := Xor(b, prev[k])];
    }
  }

  /** out[..n] holds c and the rest is as it was. */
  ghost predicate Holds(before: seq<Byte>, after: seq<Byte>, c: seq<Byte>) {
    |after| == |before| && |c| <= |after| && after == c + before[|c|..]
  }

  /** aes_cbc_encrypt */
  method CbcEncrypt(key: Block, iv: Block, data: seq<Byte>, out: array<Byte>) returns (r: Option<nat>)
    modifies out
    ensures r.None? <==> out.Length < |Sealed(key, iv, data)|
    ensures r.None? ==> out[..] == old(out[..])
    ensures r.Some? ==> r.value == |Sealed(key, iv, data)| && Holds(old(out[..]), out[..], Sealed(key, iv, data))
  {
    hide Encrypt, XorBlocks, Pad, Holds, Sealing, PadLength;
    var pad := PadLength(|data|);
    var total := |data| + pad;
    SealedSize(key, iv, data);
    if total > out.Length || total == 0 {
      return None;
    }
    ghost var p := Pad(data);
    ghost var before := out[..];
    var prev := iv;
    var o := 0;
    var i := 0;
    ghost var n := 0;
    SealingStart(key, iv, p, before);
    while i < total
      invariant i == o == 16 * n <= total
      invariant Sealing(key, iv, p, before, out[..], prev, n)
    {
      SealingRoom(key, iv, p, before, out[..], prev, n);
      var blk := XorInto(data, i, prev, n);
      var ct := EncryptBlock(key, blk);
      ghost var was := out[..];
      NextLink(key, iv, p, before, was, prev, n);
      CopyBlock(out, o, ct);
      SealingStep(key, iv, p, before, was, out[..], prev, n, ct);
      prev := ct;
      o := o + 16;
      i := i + 16;
      n := n + 1;
    }
    SealingEnd(key, iv, data, before, out[..], prev);
    return Some(total);
  }

  /** Block b has been copied to position o. */
  ghost predicate BlockPut(was: seq<Byte>, now: seq<Byte>, o: nat, b: Block) {
    o + 16 <= |was| && now == was[..o] + b + was[o + 16..]
  }

  method CopyBlock(out: array<Byte>, o: nat, b: Block)
    requires o + 16 <= out.Length
    modifies out
    ensures BlockPut(old(out[..]), out[..], o, b)
  {
    for k := 0 to 16
      invariant forall j :: 0 <= j < out.Length && !(o <= j < o + k) ==> out[j] == old(out[j])
      invariant forall j :: 0 <= j < k ==> out[o + j] == b[j]
    {
      out[o + k] := b[k];
    }
  }

  /** The first n blocks of the ciphertext are in place, and prev is the last block of them. */
  ghost predicate Sealing(key: Block, iv: Block, p: seq<Byte>, before: seq<Byte>, now: seq<Byte>, prev: Block, n: nat) {
    && 16 * n <= |p| && |p| % 16 == 0 && |p| <= |before|
    && prev == Link(key, iv, p, n) && Holds(before, now, Chained(key, iv, p, n))
  }

  lemma SealedSize(key: Block, iv: Block, m: seq<Byte>)
    ensures |Sealed(key, iv, m)| == |Pad(m)| == |m| + PadLength(|m|)
  {
    hide Chained, PadLength;
  }

  lemma SealingStart(key: Block, iv: Block, p: seq<Byte>, before: seq<Byte>)
    requires |p| % 16 == 0 && |p| <= |before|
    ensures Sealing(key, iv, p, before, before, iv, 0)
  {
  }

  lemma SealingRoom(key: Block, iv: Block, p: seq<Byte>, before: seq<Byte>, now: seq<Byte>, prev: Block, n: nat)
    requires Sealing(key, iv, p, before, now, prev, n) && 16 * n < |p|
    ensures 16 * n + 16 <= |p| && |now| == |before| && 16 * n + 16 <= |now|
  {
    hide Link, Chained;
  }

  lemma NextLink(key: Block, iv: Block, p: seq<Byte>, before: seq<Byte>, now: seq<Byte>, prev: Block, n: nat)
    requires Sealing(key, iv, p, before, now, prev, n) && 16 * n + 16 <= |p|
    ensures Link(key, iv, p, n + 1) == Encrypt(key, XorBlocks(Slice(p, n), prev))
  {
    hide Encrypt, XorBlocks, Holds;
  }

  lemma SealingStep(key: Block, iv: Block, p: seq<Byte>, before: seq<Byte>, was: seq<Byte>, now: seq<Byte>, prev: Block,
                    n: nat, ct: Block)
    requires Sealing(key, iv, p, before, was, prev, n) && 16 * n + 16 <= |p|
    requires BlockPut(was, now, 16 * n, ct) && ct == Link(key, iv, p, n + 1)
    ensures Sealing(key, iv, p, before, now, ct, n + 1)
  {
    hide Encrypt, XorBlocks, Holds, BlockPut;
    Appended(before, was, now, Chained(key, iv, p, n), ct);
  }

  lemma Appended(before: seq<Byte>, was: seq<Byte>, now: seq<Byte>, c: seq<Byte>, b: Block)
    requires Holds(before, was, c) && BlockPut(was, now, |c|, b)
    ensures Holds(before, now, c + b)
  {
  }

  lemma SealingEnd(key: Block, iv: Block, m: seq<Byte>, before: seq<Byte>, now: seq<Byte>, prev: Block)
    requires Sealing(key, iv, Pad(m), before, now, prev, Blocks(|m|))
    ensures Holds(before, now, Sealed(key, iv, m))
  {
    hide Link, Chained, Holds, Pad;
  }

  /** How many blocks decryption writes into a buffer of the given size, whatever it returns. */
  function Written(len: nat, size: nat): (n: nat)
    ensures 16 * n <= len && 16 * n <= size
  {
    if len == 0 || len % 16 != 0 || len > size + 16 then 0
    else if len <= size then len / 16 else size / 16
  }

  /** aes_cbc_decrypt */
  method CbcDecrypt(key: Block, iv: Block, data: seq<Byte>, out: array<Byte>) returns (r: Option<nat>)
    modifies out
    ensures r.Some? <==> |data| <= out.Length && Opened(key, iv, data).Some?
    ensures r.Some? ==> r.value <= |data| && out[..r.value] == Opened(key, iv, data).value
    ensures Holds(old(out[..]), out[..], Unchained(key, iv, data, Written(|data|, out.Length)))
  {
    hide Unchained, Unpad;
    if |data| == 0 || |data| % 16 != 0 || |data| > out.Length + 16 {
      NoneUnchained(key, iv, data, out[..]);
      return None;
    }
    var ok := UnchainInto(key, iv, data, out);
    if !ok {
      return None;
    }
    assert out[..|data|] == Unchained(key, iv, data, |data| / 16);
    r := StripPadding(out, |data|);
  }

  lemma NoneUnchained(key: Block, iv: Block, c: seq<Byte>, before: seq<Byte>)
    ensures Holds(before, before, Unchained(key, iv, c, 0))
  {
  }

  lemma WrittenIs(len: nat, size: nat, n: nat)
    requires len > 0 && len % 16 == 0 && len <= size + 16
    requires 16 * n <= len && 16 * n <= size && (16 * n == len || 16 * n + 16 > size)
    ensures Written(len, size) == n
  {
  }

  /** The first n blocks of the plaintext are in place, and prev is the ciphertext block before. */
  ghost predicate Opening(key: Block, iv: Block, c: seq<Byte>, before: seq<Byte>, now: seq<Byte>, prev: Block, n: nat) {
    && 16 * n <= |c| && |c| % 16 == 0 && 16 * n <= |before|
    && prev == Previous(iv, c, n) && Holds(before, now, Unchained(key, iv, c, n))
  }

  lemma OpeningStart(key: Block, iv: Block, c: seq<Byte>, before: seq<Byte>)
    requires |c| % 16 == 0
    ensures Opening(key, iv, c, before, before, iv, 0)
  {
  }

  lemma OpeningRoom(key: Block, iv: Block, c: seq<Byte>, before: seq<Byte>, now: seq<Byte>, prev: Block, n: nat)
    requires Opening(key, iv, c, before, now, prev, n) && 16 * n < |c|
    ensures 16 * n + 16 <= |c| && |now| == |before|
  {
    hide Unchained, Previous;
  }

  lemma OpeningStep(key: Block, iv: Block, c: seq<Byte>, before: seq<Byte>, was: seq<Byte>, now: seq<Byte>, prev: Block,
                    n: nat, pt: Block)
    requires Opening(key, iv, c, before, was, prev, n) && 16 * n + 16 <= |c| && 16 * n + 16 <= |before|
    requires pt == XorBlocks(Decrypt(key, c[16 * n..16 * n + 16]), prev) && BlockPut(was, now, 16 * n, pt)
    ensures Opening(key, iv, c, before, now, c[16 * n..16 * n + 16], n + 1)
  {
    hide Decrypt, XorBlocks, Holds, BlockPut;
    Appended(before, was, now, Unchained(key, iv, c, n), pt);
  }

  lemma OpeningEnd(key: Block, iv: Block, c: seq<Byte>, before: seq<Byte>, now: seq<Byte>, prev: Block, n: nat)
    requires Opening(key, iv, c, before, now, prev, n) && 0 < |c| <= |before| + 16 &&
             (16 * n == |c| || 16 * n + 16 > |before|)
    ensures Holds(before, now, Unchained(key, iv, c, Written(|c|, |before|)))
  {
    hide Unchained, Previous, Holds, Written;
    WrittenIs(|c|, |before|, n);
  }

  /** The loop of aes_cbc_decrypt; it gives up at the first block that does not fit. */
  method UnchainInto(key: Block, iv: Block, data: seq<Byte>, out: array<Byte>) returns (ok: bool)
    requires 0 < |data| <= out.Length + 16 && |data| % 16 == 0
    modifies out
    ensures ok <==> |data| <= out.Length
    ensures Holds(old(out[..]), out[..], Unchained(key, iv, data, Written(|data|, out.Length)))
  {
    hide Decrypt, XorBlocks, Unchained, Holds, Written, Opening;
    ghost var before := out[..];
    var prev := iv;
    var o := 0;
    var i := 0;
    ghost var n := 0;
    OpeningStart(key, iv, data, before);
    while i < |data|
      invariant i == o == 16 * n <= |data| && o <= out.Length
      invariant Opening(key, iv, data, before, out[..], prev, n)
    {
      OpeningRoom(key, iv, data, before, out[..], prev, n);
      var cb: Block := data[i..i + 16];
      var pt := OpenBlock(key, cb, prev);
      if o + 16 <= out.Length {
        ghost var was := out[..];
        CopyBlock(out, o, pt);
        OpeningStep(key, iv, data, before, was, out[..], prev, n, pt);
      } else {
        OpeningEnd(key, iv, data, before, out[..], prev, n);
        return false;
      }
      prev := cb;
      o := o + 16;
      i := i + 16;
      n := n + 1;
    }
    OpeningEnd(key, iv, data, before, out[..], prev, n);
    return true;
  }

  method OpenBlock(key: Block, cb: Block, prev: Block) returns (pt: Block)
    ensures pt == XorBlocks(Decrypt(key, cb), prev)
  {
    hide Decrypt, XorBlocks;
    pt := DecryptBlock(key, cb);
    pt := XorBlock(pt, prev);
  }

  method XorBlock(a: Block, b: Block) returns (r: Block)
    ensures r == XorBlocks(a, b)
  {
    hide Xor;
    r := a;
    for k := 0 to 16
      invariant forall j :: 0 <= j < k ==> r[j] == Xor(a[j], b[j])
      invariant forall j :: k <= j < 16 ==> r[j] == a[j]
    {
      r := r[k := Xor(r[k], b[k])];
    }
  }

  /** The padding check at the end of decryption: the length left of out[..o]. */
  method StripPadding(out: array<Byte>, o: nat) returns (r: Option<nat>)
    requires 16 <= o <= out.Length
    ensures r.Some? <==> Unpad(out[..o]).Some?
    ensures r.Some? ==> r.value <= o && out[..r.value] == Unpad(out[..o]).value
  {
    hide ToNat;
    var pad := ToNat(out[o - 1]);
    if pad == 0 || pad > 16 {
      return None;
    }
    for k := 0 to pad
      invariant forall j :: o - k <= j < o ==> ToNat(out[..o][j]) == pad
    {
      if ToNat(out[o - 1 - k]) != pad {
        assert ToNat(out[..o][o - 1 - k]) != pad;
        return None;
      }
    }
    return Some(o - pad);
  }
}
