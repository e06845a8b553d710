/** Disk blocks as arrays of bytes, and the 32-bit little-endian words the kernel
    reads out of them by casting `b->data` (log header, indirect blocks). */
module Blocks {
  import opened Common

  const BSIZE := 512
  const WORDS := 128 // BSIZE / sizeof(uint)

  type Block = b: seq<byte> | |b| == BSIZE witness seq(BSIZE, i => 0)

  const ZeroBlock: Block := seq(BSIZE, i => 0)

  function Word(b: Block, i: nat): (w: uint)
    requires i < WORDS
  {
    var b0: int, b1: int, b2: int, b3: int := b[4 * i], b[4 * i + 1], b[4 * i + 2], b[4 * i + 3];
    b0 + 256 * b1 + 65536 * b2 + 16777216 * b3
  }

  function SetWord(b: Block, i: nat, w: uint): (r: Block)
    requires i < WORDS
  {
    b[4 * i := w % 256][4 * i + 1 := w / 256 % 256][4 * i + 2 := w / 65536 % 256][4 * i + 3 := w / 16777216]
  }

  lemma WordOfSetWord(b: Block, i: nat, w: uint)
    requires i < WORDS
    ensures Word(SetWord(b, i, w), i) == w
  {
    assert w / 256 == 256 * (w / 65536) + w / 256 % 256;
    assert w / 65536 == 256 * (w / 16777216) + w / 65536 % 256;
  }

  lemma WordOfOtherSetWord(b: Block, i: nat, w: uint, j: nat)
    requires i < WORDS && j < WORDS && i != j
    ensures Word(SetWord(b, i, w), j) == Word(b, j)
  {
  }

  lemma WordOfZeroBlock(i: nat)
    requires i < WORDS
    ensures Word(ZeroBlock, i) == 0
  {
  }

  /** Consecutive words stored from word k on. */
  function PutWords(b: Block, k: nat, ws: seq<nat>): (r: Block)
    requires k + |ws| <= WORDS
    requires forall i :: 0 <= i < |ws| ==> ws[i] < UINT_LIMIT
  {
    if ws == [] then b
    else SetWord(PutWords(b, k, ws[..|ws| - 1]), k + |ws| - 1, ws[|ws| - 1])
  }

  lemma {:induction false} PutWordsAt(b: Block, k: nat, ws: seq<nat>, j: nat)
    requires k + |ws| <= WORDS
    requires forall i :: 0 <= i < |ws| ==> ws[i] < UINT_LIMIT
    requires j < WORDS
    ensures Word(PutWords(b, k, ws), j) == if k <= j < k + |ws| then ws[j - k] else Word(b, j)
  {
    if ws != [] {
      var m := |ws| - 1;
      PutWordsAt(b, k, ws[..m], j);
      if j == k + m {
        WordOfSetWord(PutWords(b, k, ws[..m]), k + m, ws[m]);
      } else {
        WordOfOtherSetWord(PutWords(b, k, ws[..m]), k + m, ws[m], j);
      }
    }
  }

  /** n words read from word k on. */
  function Words(b: Block, k: nat, n: nat): (r: seq<uint>)
    requires k + n <= WORDS
    ensures |r| == n && forall i :: 0 <= i < n ==> r[i] == Word(b, k + i)
  {
    if n == 0 then [] else Words(b, k, n - 1) + [Word(b, k + n - 1)]
  }
}
