/** The encoding of inodes in an inode block (struct dinode of fs.h): eight inodes of sixteen words each. */
module Dinodes {
  import opened Blocks
  import opened Volume

  /** The inode's fields are as wide as those of struct dinode. */
  predicate Fits(ip: Inode) {
    0 <= ip.typ < 0x1_0000 && 0 <= ip.nlink < 0x1_0000 && ip.size < 0x1_0000_0000 && |ip.addrs| == NDIRECT + 1
  }

  predicate AllFit(ips: seq<Inode>) {
    forall j :: 0 <= j < |ips| ==> Fits(ips[j])
  }

  /** Word `t` of an inode: type and major number, minor number and link count, size, addresses. */
  function InodeWord(ip: Inode, t: nat): (w: Word) {
    if t == 0 then ip.typ % 0x1_0000
    else if t == 1 then 0x1_0000 * (ip.nlink % 0x1_0000)
    else if t == 2 then ip.size % 0x1_0000_0000
    else if t - 3 < |ip.addrs| then ip.addrs[t - 3] else 0
  }

  function WordAt(ips: seq<Inode>, k: nat): (w: Word) {
    if k / 16 < |ips| then InodeWord(ips[k / 16], k % 16) else 0
  }

  /** A block with its first `n` words stored. */
  function Stored(ips: seq<Inode>, n: nat): (b: Block)
    requires n <= WORDS
  {
    if n == 0 then Zeroed() else PutWord(Stored(ips, n - 1), n - 1, WordAt(ips, n - 1))
  }

  function Encode(ips: seq<Inode>): (b: Block) {
    Stored(ips, WORDS)
  }

  lemma {:induction false} StoredWord(ips: seq<Inode>, n: nat, k: nat)
    requires k < n <= WORDS
    ensures GetWord(Stored(ips, n), k) == WordAt(ips, k)
    decreases n
  {
    hide GetWord, PutWord, WordAt;
    GetPutWord(Stored(ips, n - 1), n - 1, WordAt(ips, n - 1));
    if k < n - 1 {
      StoredWord(ips, n - 1, k);
    }
  }

  lemma {:induction false} SameWords(x: Inode, y: Inode)
    requires Fits(x) && Fits(y) && forall t: nat :: t < 16 ==> InodeWord(x, t) == InodeWord(y, t)
    ensures x == y
  {
    assert InodeWord(x, 0) == InodeWord(y, 0) && InodeWord(x, 1) == InodeWord(y, 1) && InodeWord(x, 2) == InodeWord(y, 2);
    forall k | 0 <= k < NDIRECT + 1
      ensures x.addrs[k] == y.addrs[k]
    {
      assert InodeWord(x, k + 3) == InodeWord(y, k + 3);
    }
    assert x.addrs == y.addrs;
  }

  /** Inodes are read back from their block. */
  lemma {:induction false} EncodeInjective(x: seq<Inode>, y: seq<Inode>)
    requires |x| == |y| <= IPB && AllFit(x) && AllFit(y) && Encode(x) == Encode(y)
    ensures x == y
  {
    hide InodeWord, Stored, Fits;
    forall j | 0 <= j < |x|
      ensures x[j] == y[j]
    {
      forall t: nat | t < 16
        ensures InodeWord(x[j], t) == InodeWord(y[j], t)
      {
        var k := 16 * j + t;
        assert k / 16 == j && k % 16 == t && k < WORDS;
        StoredWord(x, WORDS, k);
        StoredWord(y, WORDS, k);
      }
      SameWords(x[j], y[j]);
    }
  }
}
