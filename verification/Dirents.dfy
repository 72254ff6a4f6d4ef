/** Directory contents (fs.c, fs.h): 16-byte entries with names of at most DIRSIZ bytes, read as a
    finite map from names to inode numbers. */
module Dirents {

  import opened Blocks
  import opened Volume

  const DIRSIZ := 14

  /** sizeof(struct dirent) */
  const DESIZE := 16

  type Name = seq<Byte>

  ghost predicate IsCString(name: Name) {
    forall k :: 0 <= k < |name| ==> name[k] != 0
  }

  /** The part of a name that counts. */
  function Trunc(name: Name): (r: Name) {
    if |name| <= DIRSIZ then name else name[..DIRSIZ]
  }

  /** The name in a fixed-size field: everything before the first zero byte. */
  function Key(field: Name): (r: Name) {
    if field == [] || field[0] == 0 then [] else [field[0]] + Key(field[1..])
  }

  /** A name in a field, cut off or filled up with zeros. */
  function Pad(name: Name, n: nat): (r: Name)
    ensures |r| == n
  {
    seq(n, k requires 0 <= k < n => if k < |name| then name[k] else 0)
  }

  lemma {:induction false} KeyPad(name: Name, n: nat)
    requires IsCString(name)
    ensures Key(Pad(name, n)) == if |name| <= n then name else name[..n]
    decreases n
  {
    var p := Pad(name, n);
    if n > 0 && name != [] {
      assert p[1..] == Pad(name[1..], n - 1);
      KeyPad(name[1..], n - 1);
      if |name| > n {
        assert name[..n] == [name[0]] + name[1..][..n - 1];
      } else {
        assert name == [name[0]] + name[1..];
      }
    }
  }

  // ---------------------------------------------------------------- entries

  predicate IsDir(c: seq<Byte>) {
    |c| % DESIZE == 0
  }

  function Count(c: seq<Byte>): (n: nat) {
    |c| / DESIZE
  }

  function Inum(c: seq<Byte>, k: nat): (i: nat)
    requires DESIZE * k + DESIZE <= |c|
  {
    var lo: nat, hi: nat := c[DESIZE * k], c[DESIZE * k + 1];
    lo + 0x100 * hi
  }

  function Field(c: seq<Byte>, k: nat): (f: Name)
    requires DESIZE * k + DESIZE <= |c|
    ensures |f| == DIRSIZ
  {
    c[DESIZE * k + 2..DESIZE * k + DESIZE]
  }

  function NameAt(c: seq<Byte>, k: nat): (n: Name)
    requires DESIZE * k + DESIZE <= |c|
  {
    Key(Field(c, k))
  }

  /** Entry `k` is in use. */
  predicate Live(c: seq<Byte>, k: nat) {
    DESIZE * k + DESIZE <= |c| && Inum(c, k) != 0
  }

  ghost predicate Unique(c: seq<Byte>) {
    forall k, l :: 0 <= k < l && Live(c, k) && Live(c, l) ==> NameAt(c, k) != NameAt(c, l)
  }

  /** A well-formed directory: whole entries, no name twice. */
  ghost predicate Proper(c: seq<Byte>) {
    IsDir(c) && Unique(c)
  }

  ghost predicate Names(c: seq<Byte>, k: nat, n: Name) {
    Live(c, k) && NameAt(c, k) == n
  }

  ghost function Keys(c: seq<Byte>): (ks: set<Name>)
  {
    set k: nat | k < Count(c) && Live(c, k) :: NameAt(c, k)
  }

  lemma {:induction false} KeysAre(c: seq<Byte>, n: Name)
    ensures n in Keys(c) <==> exists k: nat :: Names(c, k, n)
  {
    if exists k: nat :: Names(c, k, n) {
      var k: nat :| Names(c, k, n);
      assert k < Count(c);
    }
    if n in Keys(c) {
      var k: nat :| k < Count(c) && Live(c, k) && NameAt(c, k) == n;
      assert Names(c, k, n);
    }
  }

  ghost function Where(c: seq<Byte>, n: Name): (k: nat)
    requires n in Keys(c)
    ensures Names(c, k, n)
  {
    KeysAre(c, n);
    var k: nat :| Names(c, k, n);
    k
  }

  /** The directory as a map from names to inode numbers. */
  ghost function AsMap(c: seq<Byte>): (m: map<Name, nat>)
    ensures m.Keys == Keys(c)
  {
    map n | n in Keys(c) :: Inum(c, Where(c, n))
  }

  lemma {:induction false} AsMapAt(c: seq<Byte>, k: nat)
    requires Proper(c) && Live(c, k)
    ensures NameAt(c, k) in AsMap(c) && AsMap(c)[NameAt(c, k)] == Inum(c, k)
  {
    var n := NameAt(c, k);
    assert Names(c, k, n);
    KeysAre(c, n);
    var l := Where(c, n);
    assert l == k;
  }

  // ---------------------------------------------------------------- changing one entry

  function Encode(inum: nat, field: Name): (b: seq<Byte>)
    requires inum < 0x1_0000 && |field| == DIRSIZ
    ensures |b| == DESIZE
  {
    [inum % 0x100, inum / 0x100] + field
  }

  /** The directory with entry `k` written, possibly one past the last. */
  function Put(c: seq<Byte>, k: nat, inum: nat, field: Name): (r: seq<Byte>)
    requires IsDir(c) && k <= Count(c) && inum < 0x1_0000 && |field| == DIRSIZ
  {
    Overwrite(c, DESIZE * k, Encode(inum, field))
  }

  lemma {:induction false} PutShape(c: seq<Byte>, k: nat, inum: nat, field: Name)
    requires IsDir(c) && k <= Count(c) && inum < 0x1_0000 && |field| == DIRSIZ
    ensures var r := Put(c, k, inum, field);
            && IsDir(r) && Count(r) == (if k < Count(c) then Count(c) else k + 1)
            && |r| <= |c| + DESIZE
  {
  }

  lemma {:induction false} PutAt(c: seq<Byte>, k: nat, inum: nat, field: Name, l: nat)
    requires IsDir(c) && k <= Count(c) && inum < 0x1_0000 && |field| == DIRSIZ
    ensures var r := Put(c, k, inum, field);
            && (DESIZE * l + DESIZE <= |r| <==> l == k || DESIZE * l + DESIZE <= |c|)
            && (l == k ==> Inum(r, l) == inum && Field(r, l) == field)
            && (l != k && DESIZE * l + DESIZE <= |c| ==> Inum(r, l) == Inum(c, l) && Field(r, l) == Field(c, l))
  {
    var r := Put(c, k, inum, field);
    var b := Encode(inum, field);
    PutShape(c, k, inum, field);
    if l == k {
      assert r[DESIZE * l..DESIZE * l + DESIZE] == b;
      assert r[DESIZE * l] == b[0] && r[DESIZE * l + 1] == b[1];
      assert Field(r, l) == b[2..DESIZE] == field;
    } else if DESIZE * l + DESIZE <= |c| {
      assert r[DESIZE * l..DESIZE * l + DESIZE] == c[DESIZE * l..DESIZE * l + DESIZE];
      assert r[DESIZE * l] == c[DESIZE * l] && r[DESIZE * l + 1] == c[DESIZE * l + 1];
      assert Field(r, l) == Field(c, l);
    }
  }

  /** The same, in terms of names. */
  lemma {:induction false} PutNames(c: seq<Byte>, k: nat, inum: nat, field: Name, l: nat, n: Name)
    requires IsDir(c) && k <= Count(c) && inum < 0x1_0000 && |field| == DIRSIZ
    ensures var r := Put(c, k, inum, field);
            && (Names(r, l, n) <==> if l == k then inum != 0 && Key(field) == n else Names(c, l, n))
            && (Names(r, l, n) && l != k ==> Inum(r, l) == Inum(c, l))
            && (Names(r, l, n) && l == k ==> Inum(r, l) == inum)
  {
    hide Put, Key;
    PutAt(c, k, inum, field, l);
  }

  /** Writing a new name into an unused entry adds it to the map. */
  lemma {:induction false} PutNew(c: seq<Byte>, k: nat, inum: nat, field: Name)
    requires Proper(c) && k <= Count(c) && 0 < inum < 0x1_0000 && |field| == DIRSIZ
    requires !Live(c, k) && Key(field) !in AsMap(c)
    ensures Proper(Put(c, k, inum, field))
    ensures AsMap(Put(c, k, inum, field)) == AsMap(c)[Key(field) := inum]
  {
    hide Put, Key;
    var r := Put(c, k, inum, field);
    PutProper(c, k, inum, field);
    hide Proper, Live, NameAt, AsMap;
    forall n
      ensures n in AsMap(r) <==> n in AsMap(c) || n == Key(field)
      ensures n in AsMap(r) ==> AsMap(r)[n] == if n == Key(field) then inum else AsMap(c)[n]
    {
      PutNewAt(c, k, inum, field, n);
    }
  }

  lemma {:induction false} PutProper(c: seq<Byte>, k: nat, inum: nat, field: Name)
    requires Proper(c) && k <= Count(c) && inum < 0x1_0000 && |field| == DIRSIZ
    requires inum != 0 ==> Key(field) !in AsMap(c)
    ensures Proper(Put(c, k, inum, field))
  {
    hide Put, Key, AsMap;
    var r := Put(c, k, inum, field);
    PutShape(c, k, inum, field);
    forall x, y | 0 <= x < y && Live(r, x) && Live(r, y)
      ensures NameAt(r, x) != NameAt(r, y)
    {
      PutApart(c, k, inum, field, x, y);
    }
  }

  lemma {:induction false} PutApart(c: seq<Byte>, k: nat, inum: nat, field: Name, x: nat, y: nat)
    requires Proper(c) && k <= Count(c) && inum < 0x1_0000 && |field| == DIRSIZ && x < y
    requires inum != 0 ==> Key(field) !in AsMap(c)
    requires var r := Put(c, k, inum, field); Live(r, x) && Live(r, y)
    ensures var r := Put(c, k, inum, field); NameAt(r, x) != NameAt(r, y)
  {
    hide Put, Key;
    var r := Put(c, k, inum, field);
    PutNames(c, k, inum, field, x, NameAt(r, x));
    PutNames(c, k, inum, field, y, NameAt(r, y));
    KeysAre(c, Key(field));
  }

  lemma {:induction false} PutNewAt(c: seq<Byte>, k: nat, inum: nat, field: Name, n: Name)
    requires Proper(c) && k <= Count(c) && 0 < inum < 0x1_0000 && |field| == DIRSIZ
    requires !Live(c, k) && Key(field) !in AsMap(c) && Proper(Put(c, k, inum, field))
    ensures var r := Put(c, k, inum, field);
            && (n in AsMap(r) <==> n in AsMap(c) || n == Key(field))
            && (n in AsMap(r) ==> AsMap(r)[n] == if n == Key(field) then inum else AsMap(c)[n])
  {
    hide Put, Key;
    var r := Put(c, k, inum, field);
    KeysAre(r, n);
    KeysAre(c, n);
    if n in AsMap(r) {
      var l := Where(r, n);
      PutNames(c, k, inum, field, l, n);
      if l != k {
        AsMapAt(c, l);
      }
    }
    if n in AsMap(c) {
      var l := Where(c, n);
      PutNames(c, k, inum, field, l, n);
    }
    if n == Key(field) {
      PutNames(c, k, inum, field, k, n);
    }
  }

  /** Clearing an entry takes its name out of the map. */
  lemma {:induction false} PutNothing(c: seq<Byte>, k: nat, field: Name)
    requires Proper(c) && Live(c, k) && |field| == DIRSIZ
    ensures k <= Count(c) && Proper(Put(c, k, 0, field))
    ensures AsMap(Put(c, k, 0, field)) == AsMap(c) - {NameAt(c, k)}
  {
    LiveInside(c, k);
    hide Put, Key, Keys, Proper, Live, NameAt, AsMap;
    var gone := NameAt(c, k);
    var r := Put(c, k, 0, field);
    PutProper(c, k, 0, field);
    forall n
      ensures n in AsMap(r) <==> n in AsMap(c) && n != gone
      ensures n in AsMap(r) ==> AsMap(r)[n] == AsMap(c)[n]
    {
      PutNothingAt(c, k, field, n);
    }
    MapLess(AsMap(c), AsMap(r), gone);
  }

  lemma {:induction false} LiveInside(c: seq<Byte>, k: nat)
    requires Proper(c) && Live(c, k)
    ensures k < Count(c) && IsDir(c) && DESIZE * k + DESIZE <= |c|
  {
  }

  lemma {:induction false} MapLess(m: map<Name, nat>, r: map<Name, nat>, gone: Name)
    requires forall n :: n in r <==> n in m && n != gone
    requires forall n :: n in r ==> r[n] == m[n]
    ensures r == m - {gone}
  {
  }

  lemma {:induction false} PutNothingAt(c: seq<Byte>, k: nat, field: Name, n: Name)
    requires Proper(c) && Live(c, k) && k < Count(c) && |field| == DIRSIZ && Proper(Put(c, k, 0, field))
    ensures var r := Put(c, k, 0, field);
            && (n in AsMap(r) <==> n in AsMap(c) && n != NameAt(c, k))
            && (n in AsMap(r) ==> AsMap(r)[n] == AsMap(c)[n])
  {
    hide Put, Key;
    var r := Put(c, k, 0, field);
    KeysAre(r, n);
    KeysAre(c, n);
    if n in AsMap(r) {
      var l := Where(r, n);
      PutNames(c, k, 0, field, l, n);
      AsMapAt(c, l);
    }
    if n in AsMap(c) && n != NameAt(c, k) {
      var l := Where(c, n);
      PutNames(c, k, 0, field, l, n);
    }
  }
}
