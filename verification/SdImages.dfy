/** Building the card's preset volumes, storing them as their non-zero runs, and what
    the reader makes of them once they are loaded. */
module SdImages {
  import opened Wrappers
  import opened FatReader

  const BLOCKS: nat := 8
  const SIZE: nat := 4096

  function Zeros(n: nat): (r: seq<Byte>)
    ensures |r| == n && forall i :: 0 <= i < n ==> r[i] == 0
  {
    seq(n, i => 0)
  }

  /** Slice assignment of the same length. */
  function Put(s: seq<Byte>, at: nat, bytes: seq<Byte>): (r: seq<Byte>)
    requires at + |bytes| <= |s|
    ensures |r| == |s|
    ensures forall i :: 0 <= i < |s| ==> r[i] == if at <= i < at + |bytes| then bytes[i - at] else s[i]
  {
    s[..at] + bytes + s[at + |bytes|..]
  }

  function Pack16(v: nat): (r: seq<Byte>)
    ensures |r| == 2
  {
    [v % 256, v / 256 % 256]
  }

  function Pack32(v: nat): (r: seq<Byte>)
    ensures |r| == 4
  {
    [v % 256, v / 256 % 256, v / 0x10000 % 256, v / 0x1000000 % 256]
  }

  function Padded(s: seq<Byte>, n: nat): (r: seq<Byte>)
    requires |s| <= n
    ensures |r| == n
  {
    s + seq(n - |s|, i => 0x20)
  }

  /** The fields a driver reads, and the ones it does not. */
  function BootSector(volumeLabel: seq<Byte>): (r: Block)
    requires |volumeLabel| <= 11
  {
    var s := Put(Zeros(512), 0, [0xEB, 0x3C, 0x90, 0x45, 0x4D, 0x42, 0x45, 0x44, 0x42, 0x45, 0x4E]);
    var s := Put(s, 11, Pack16(512) + [1] + Pack16(1) + [1] + Pack16(16) + Pack16(8) + [0xF8]
                        + Pack16(1) + Pack16(1) + Pack16(1));
    var s := Put(s, 36, [0x80, 0, 0x29] + Pack32(0x454D4244) + Padded(volumeLabel, 11));
    var s := Put(s, 54, [0x46, 0x41, 0x54, 0x31, 0x32, 0x20, 0x20, 0x20]);
    Put(s, 510, [0x55, 0xAA])
  }

  /** One entry written over the nibbles of its neighbours. */
  function WriteEntry(s: Block, cluster: nat, value: nat): (r: Block)
    requires cluster <= 340
  {
    var at := cluster * 3 / 2;
    if cluster % 2 == 0
    then s[at := value % 256][at + 1 := s[at + 1] / 16 * 16 + value / 256 % 16]
    else s[at := s[at] % 16 + value % 16 * 16][at + 1 := value / 16 % 256]
  }

  /** The entry a pair of clusters shares three bytes with. */
  function PairEntry(b0: Byte, b1: Byte, b2: Byte, odd: bool): nat {
    if odd then b1 as int / 16 + 16 * (b2 as int) else b0 as int + 256 * (b1 as int % 16)
  }

  lemma EntryAt(s: Block, k: nat, odd: bool)
    requires k < 170 || (k == 170 && !odd)
    ensures FatEntry(s, 2 * k + if odd then 1 else 0) ==
            PairEntry(s[3 * k], s[3 * k + 1], if odd then s[3 * k + 2] else 0, odd)
  {
    assert (2 * k) * 3 / 2 == 3 * k && (2 * k) % 2 == 0;
    assert (2 * k + 1) * 3 / 2 == 3 * k + 1 && (2 * k + 1) % 2 == 1;
  }

  lemma WriteEven(s: Block, k: nat, value: nat)
    requires k <= 170
    ensures WriteEntry(s, 2 * k, value) ==
            s[3 * k := value % 256][3 * k + 1 := s[3 * k + 1] / 16 * 16 + value / 256 % 16]
  {
    assert (2 * k) * 3 / 2 == 3 * k && (2 * k) % 2 == 0;
  }

  lemma WriteOdd(s: Block, k: nat, value: nat)
    requires k < 170
    ensures WriteEntry(s, 2 * k + 1, value) ==
            s[3 * k + 1 := s[3 * k + 1] % 16 + value % 16 * 16][3 * k + 2 := value / 16 % 256]
  {
    assert (2 * k + 1) * 3 / 2 == 3 * k + 1 && (2 * k + 1) % 2 == 1;
  }

  lemma TwelveBits(v: nat)
    ensures v % 4096 == v % 256 + 256 * (v / 256 % 16) && v % 4096 == v % 16 + 16 * (v / 16 % 256)
  {
    TwoDigits(v, 256, 16);
    TwoDigits(v, 16, 256);
  }

  /** The last two digits of a number in bases a and b, where a * b is 4096. */
  lemma TwoDigits(v: nat, a: nat, b: nat)
    requires (a == 256 && b == 16) || (a == 16 && b == 256)
    ensures v % 4096 == v % a + a * (v / a % b)
  {
    var q := v / a;
    assert v == a * q + v % a;
    assert q == b * (q / b) + q % b;
    SmallRest(v / a / b, v % a + a * (q % b), v);
  }

  lemma SmallRest(q: nat, r: nat, v: nat)
    requires v == 4096 * q + r && r < 4096
    ensures v % 4096 == r
  {
  }

  lemma LowNibble(b: Byte, n: nat, b0: Byte, b2: Byte)
    requires n < 16
    ensures PairEntry(b0, b / 16 * 16 + n, b2, false) == b0 as int + 256 * n
    ensures forall any: Byte :: PairEntry(b0, b / 16 * 16 + n, b2, true) == PairEntry(any, b, b2, true)
  {
    var h := b / 16;
    assert b == h * 16 + b % 16 && (h * 16 + n) / 16 == h && (h * 16 + n) % 16 == n;
  }

  lemma HighNibble(b: Byte, n: nat, b0: Byte, b2: Byte)
    requires n < 16
    ensures PairEntry(b0, b % 16 + n * 16, b2, true) == n + 16 * (b2 as int)
    ensures forall any: Byte :: PairEntry(b0, b % 16 + n * 16, b2, false) == PairEntry(b0, b, any, false)
  {
    var l := b % 16;
    assert (l + n * 16) / 16 == n && (l + n * 16) % 16 == l;
  }

  lemma PairReadsBack(b0: Byte, b1: Byte, b2: Byte, value: nat, odd: bool)
    ensures PairEntry(value % 256, b1 / 16 * 16 + value / 256 % 16, b2, odd) ==
            if odd then PairEntry(b0, b1, b2, true) else value % 4096
    ensures PairEntry(b0, b1 % 16 + value % 16 * 16, value / 16 % 256, odd) ==
            if odd then value % 4096 else PairEntry(b0, b1, b2, false)
  {
    hide PairEntry;
    TwelveBits(value);
    LowNibble(b1, value / 256 % 16, value % 256, b2);
    HighNibble(b1, value % 16, b0, value / 16 % 256);
  }

  /** Writing an entry makes it read back and disturbs no other. */
  lemma EntryReadsBack(s: Block, cluster: nat, value: nat, other: nat)
    requires cluster <= 340 && other <= 340
    ensures FatEntry(WriteEntry(s, cluster, value), other) ==
            if other == cluster then value % 4096 else FatEntry(s, other)
  {
    hide WriteEntry, FatEntry, PairEntry;
    var k, m, odd := cluster / 2, other / 2, other % 2 == 1;
    var r := WriteEntry(s, cluster, value);
    EntryAt(s, m, odd);
    EntryAt(r, m, odd);
    if cluster % 2 == 0 {
      WriteEven(s, k, value);
      PairReadsBack(s[3 * k], s[3 * k + 1], if odd && k < 170 then s[3 * k + 2] else 0, value, odd);
    } else {
      WriteOdd(s, k, value);
      PairReadsBack(s[3 * k], s[3 * k + 1], s[3 * k + 2], value, odd);
      PairIgnores(s[3 * k], s[3 * k + 1], s[3 * k + 2]);
      PairIgnores(s[3 * k], r[3 * k + 1], r[3 * k + 2]);
    }
  }

  lemma PairIgnores(b0: Byte, b1: Byte, b2: Byte)
    ensures PairEntry(b0, b1, b2, false) == PairEntry(b0, b1, 0, false)
  {
  }

  datatype FatLink = FatLink(cluster: nat, next: nat)

  predicate Fits(chain: seq<FatLink>) {
    forall i :: 0 <= i < |chain| ==> chain[i].cluster <= 340
  }

  function Entered(s: Block, chain: seq<FatLink>): Block
    requires Fits(chain)
    decreases |chain|
  {
    if chain == [] then s else Entered(WriteEntry(s, chain[0].cluster, chain[0].next), chain[1..])
  }

  /** The reserved entries, then the chain's. */
  function FatSector(chain: seq<FatLink>): Block
    requires Fits(chain)
  {
    Entered(WriteEntry(WriteEntry(Zeros(512), 0, 0xFF8), 1, 0xFFF), chain)
  }

  /** What a list of entries says of a cluster, the last word counting. */
  function NextOf(chain: seq<FatLink>, cluster: nat, otherwise: nat): nat
    decreases |chain|
  {
    if chain == [] then otherwise
    else NextOf(chain[1..], cluster, if chain[0].cluster == cluster then chain[0].next % 4096 else otherwise)
  }

  lemma {:induction false} EnteredReadsBack(s: Block, chain: seq<FatLink>, cluster: nat)
    requires Fits(chain) && cluster <= 340
    ensures FatEntry(Entered(s, chain), cluster) == NextOf(chain, cluster, FatEntry(s, cluster))
    decreases |chain|
  {
    if chain != [] {
      EntryReadsBack(s, chain[0].cluster, chain[0].next, cluster);
      EnteredReadsBack(WriteEntry(s, chain[0].cluster, chain[0].next), chain[1..], cluster);
    }
  }

  /** Every chain reads back from its sector, entry for entry: a cluster gets what was
      written for it, any other above the reserved two is free. */
  lemma FatSectorReadsBack(chain: seq<FatLink>, cluster: nat)
    requires Fits(chain) && 2 <= cluster <= 340
    ensures FatEntry(FatSector(chain), cluster) == NextOf(chain, cluster, 0)
  {
    var z: Block := Zeros(512);
    assert FatEntry(z, cluster) == 0;
    hide WriteEntry, FatEntry;
    EntryReadsBack(z, 0, 0xFF8, cluster);
    EntryReadsBack(WriteEntry(z, 0, 0xFF8), 1, 0xFFF, cluster);
    EnteredReadsBack(WriteEntry(WriteEntry(z, 0, 0xFF8), 1, 0xFFF), chain, cluster);
  }

  /** The loop over the entries, on a sector changed in place. */
  method FillFatSector(s: array<Byte>, chain: seq<FatLink>)
    requires s.Length == 512 && Fits(chain) && forall i :: 0 <= i < 512 ==> s[i] == 0
    modifies s
    ensures s[..] == FatSector(chain)
  {
    var entries := [FatLink(0, 0xFF8), FatLink(1, 0xFFF)] + chain;
    assert s[..] == Zeros(512);
    assert entries[1..][1..] == chain && entries[0..] == entries;
    hide WriteEntry;
    assert Entered(s[..], entries) == Entered(WriteEntry(s[..], 0, 0xFF8), entries[1..]);
    assert Entered(s[..], entries) == FatSector(chain);
    var k := 0;
    while k < |entries|
      invariant 0 <= k <= |entries| && Fits(entries)
      invariant Entered(s[..], entries[k..]) == FatSector(chain)
    {
      var cluster, value := entries[k].cluster, entries[k].next;
      assert entries[k..][1..] == entries[k + 1..];
      SetEntry(s, cluster, value);
      k := k + 1;
    }
  }

  method SetEntry(s: array<Byte>, cluster: nat, value: nat)
    requires s.Length == 512 && cluster <= 340
    modifies s
    ensures s[..] == WriteEntry(old(s[..]), cluster, value)
  {
    var off := cluster * 3 / 2;
    if cluster % 2 == 0 {
      s[off] := value % 256;
      s[off + 1] := s[off + 1] / 16 * 16 + value / 256 % 16;
    } else {
      s[off] := s[off] % 16 + value % 16 * 16;
      s[off + 1] := value / 16 % 256;
    }
  }

  function DirEntry(name: seq<Byte>, ext: seq<Byte>, cluster: nat, size: nat): (r: seq<Byte>)
    requires |name| <= 8 && |ext| <= 3
    ensures |r| == 32
  {
    Padded(name, 8) + Padded(ext, 3) + [0x20] + Zeros(10) + Pack16(0x6000) + Pack16(0x5926) + Pack16(cluster)
      + Pack32(size)
  }

  /** A volume holding one file of at most one cluster. */
  function BuildWithFile(content: seq<Byte>, name: seq<Byte>, ext: seq<Byte>): (r: seq<Byte>)
    requires |content| <= 512 && |name| <= 8 && |ext| <= 3
    ensures |r| == SIZE
  {
    VolumeOf([FatLink(2, 0xFFF)], |content|, content, name, ext)
  }

  function VolumeOf(chain: seq<FatLink>, size: nat, content: seq<Byte>, name: seq<Byte>, ext: seq<Byte>): (r: seq<Byte>)
    requires Fits(chain) && |content| <= 512 && |name| <= 8 && |ext| <= 3
    ensures |r| == SIZE
  {
    var image := Put(Zeros(SIZE), 0, BootSector([0x45, 0x4D, 0x42, 0x45, 0x44, 0x42, 0x45, 0x4E, 0x43, 0x48]));
    var image := Put(image, 512, FatSector(chain));
    var image := Put(image, 1024, DirEntry(name, ext, 2, size));
    Put(image, 1536, content)
  }

  /** The card with an image on it. */
  function DiskOf(image: seq<Byte>): (d: Disk)
    requires |image| == SIZE
  {
    map b: nat | 0 <= b < BLOCKS :: image[b * 512..b * 512 + 512]
  }

  // --- Reading the volumes back --------------------------------------------

  const TOY := Volume(512, 1, 1, 1, 16, 1, 2, 3, 8)

  lemma BootFields(volumeLabel: seq<Byte>)
    requires |volumeLabel| <= 11
    ensures var s := BootSector(volumeLabel);
            && s[510] == 0x55 && s[511] == 0xAA && Le16(s, 11) == 512 && s[13] == 1 && Le16(s, 14) == 1 && s[16] == 1
            && Le16(s, 17) == 16 && Le16(s, 19) == 8 && Le16(s, 22) == 1
  {
  }

  /** The blocks of a volume. */
  lemma VolumeBlocks(chain: seq<FatLink>, size: nat, content: seq<Byte>, name: seq<Byte>, ext: seq<Byte>)
    requires Fits(chain) && |content| <= 512 && |name| <= 8 && |ext| <= 3
    ensures var d := DiskOf(VolumeOf(chain, size, content, name, ext));
            && (forall b :: b in d <==> 0 <= b < BLOCKS)
            && d[0] == BootSector([0x45, 0x4D, 0x42, 0x45, 0x44, 0x42, 0x45, 0x4E, 0x43, 0x48])
            && d[1] == FatSector(chain)
            && d[2] == DirEntry(name, ext, 2, size) + Zeros(480)
            && d[3][..|content|] == content
  {
    hide BootSector, FatSector, DirEntry, Put;
    var boot := BootSector([0x45, 0x4D, 0x42, 0x45, 0x44, 0x42, 0x45, 0x4E, 0x43, 0x48]);
    var entry := DirEntry(name, ext, 2, size);
    var i1 := Put(Zeros(SIZE), 0, boot);
    var i2 := Put(i1, 512, FatSector(chain));
    var i3 := Put(i2, 1024, entry);
    var image := VolumeOf(chain, size, content, name, ext);
    assert image == Put(i3, 1536, content);
    PutBlocks(i3, 1536, content, 0, 1536);
    PutBlocks(i2, 1024, entry, 0, 1024);
    PutBlocks(i1, 512, FatSector(chain), 0, 512);
    PutBlocks(Zeros(SIZE), 0, boot, 0, 0);
    assert image[..1536] == i3[..1536] && i3[..1024] == i2[..1024] && i2[..512] == i1[..512];
    ImageBlocks(image, i3, i2, i1);
    assert i3[1024..1536] == entry + Zeros(480);
    assert image[1536..2048][..|content|] == content;
  }

  /** Bytes laid down leave what is before them, and stand where they were laid. */
  lemma PutBlocks(s: seq<Byte>, at: nat, bytes: seq<Byte>, lo: nat, hi: nat)
    requires at + |bytes| <= |s| && lo <= hi <= at
    ensures var r := Put(s, at, bytes);
            r[lo..hi] == s[lo..hi] && r[at..at + |bytes|] == bytes && r[at + |bytes|..] == s[at + |bytes|..]
  {
  }

  lemma ImageBlocks(image: seq<Byte>, i3: seq<Byte>, i2: seq<Byte>, i1: seq<Byte>)
    requires |image| == |i3| == |i2| == |i1| == SIZE
    requires image[..1536] == i3[..1536] && i3[..1024] == i2[..1024] && i2[..512] == i1[..512]
    ensures image[1024..1536] == i3[1024..1536] && image[512..1024] == i2[512..1024] && image[0..512] == i1[0..512]
  {
    assert image[1024..1536] == image[..1536][1024..] == i3[..1536][1024..];
    assert image[512..1024] == image[..1536][512..1024] == i3[..1024][512..] == i2[..1024][512..];
    assert image[0..512] == image[..1536][..512] == i3[..1024][..512] == i2[..512] == i1[..512];
  }

  lemma BootMounts(d: Disk, volumeLabel: seq<Byte>)
    requires |volumeLabel| <= 11 && 0 in d && d[0] == BootSector(volumeLabel)
    ensures MountVolume(d) == Some(TOY)
  {
    hide BootSector, Le16;
    BootFields(volumeLabel);
  }

  lemma VolumeMounts(chain: seq<FatLink>, size: nat, content: seq<Byte>, name: seq<Byte>, ext: seq<Byte>)
    requires Fits(chain) && |content| <= 512 && |name| <= 8 && |ext| <= 3
    ensures MountVolume(DiskOf(VolumeOf(chain, size, content, name, ext))) == Some(TOY)
  {
    hide VolumeOf, DiskOf, BootSector, FatSector, DirEntry, MountVolume, Put;
    VolumeBlocks(chain, size, content, name, ext);
    BootMounts(DiskOf(VolumeOf(chain, size, content, name, ext)),
               [0x45, 0x4D, 0x42, 0x45, 0x44, 0x42, 0x45, 0x4E, 0x43, 0x48]);
  }

  lemma EntryFields(name: seq<Byte>, ext: seq<Byte>, size: nat, root: Block)
    requires |name| <= 8 && |ext| <= 3 && size < 0x1_0000_0000 && root == DirEntry(name, ext, 2, size) + Zeros(480)
    ensures root[..11] == Padded(name, 8) + Padded(ext, 3)
    ensures Le16(root, 26) == 2 && Le32(root, 28) == size && root[0] == Padded(name, 8)[0] && root[32] == 0
  {
    EntryBytes(name, ext, size);
    FourBytes(size);
    hide DirEntry, Padded;
  }

  /** Where the fields of an entry stand. */
  lemma EntryBytes(name: seq<Byte>, ext: seq<Byte>, size: nat)
    requires |name| <= 8 && |ext| <= 3
    ensures var e := DirEntry(name, ext, 2, size);
            && e[..11] == Padded(name, 8) + Padded(ext, 3) && e[0] == Padded(name, 8)[0]
            && e[26] == Pack16(2)[0] && e[27] == Pack16(2)[1] && e[28] == Pack32(size)[0] && e[29] == Pack32(size)[1]
            && e[30] == Pack32(size)[2] && e[31] == Pack32(size)[3]
  {
    hide Padded, Pack16, Pack32, Zeros;
    var padded := Padded(name, 8) + Padded(ext, 3);
    var head := padded + [0x20] + Zeros(10) + Pack16(0x6000) + Pack16(0x5926);
    assert DirEntry(name, ext, 2, size) == head + Pack16(2) + Pack32(size);
    hide DirEntry;
    LastFields(head, Pack16(2), Pack32(size));
    assert head[..11] == padded;
  }

  lemma LastFields(head: seq<Byte>, a: seq<Byte>, b: seq<Byte>)
    requires |head| == 26 && |a| == 2 && |b| == 4
    ensures var e := head + a + b;
            && e[..11] == head[..11] && e[0] == head[0] && e[26] == a[0] && e[27] == a[1]
            && e[28] == b[0] && e[29] == b[1] && e[30] == b[2] && e[31] == b[3]
  {
  }

  lemma FourBytes(v: nat)
    requires v < 0x1_0000_0000
    ensures v == v % 256 + 256 * (v / 256 % 256) + 0x10000 * (v / 0x10000 % 256) + 0x1000000 * (v / 0x1000000 % 256)
  {
    var a, b, c := v / 256, v / 0x10000, v / 0x1000000;
    assert a / 256 == b && b / 256 == c;
    assert v == 256 * a + v % 256 && a == 256 * b + a % 256 && b == 256 * c + b % 256;
    assert c % 256 == c;
  }

  /** The file is found under its padded name exactly when that name does not start like a
      free or a deleted entry. */
  lemma VolumeFinds(chain: seq<FatLink>, size: nat, content: seq<Byte>, name: seq<Byte>, ext: seq<Byte>)
    requires Fits(chain) && |content| <= 512 && |name| <= 8 && |ext| <= 3 && size < 0x1_0000_0000
    ensures FindFile(TOY, DiskOf(VolumeOf(chain, size, content, name, ext)), Padded(name, 8) + Padded(ext, 3))
            == Some((2, size))
            <==> Padded(name, 8)[0] != 0 && Padded(name, 8)[0] != 0xE5
  {
    hide VolumeOf, DiskOf, BootSector, FatSector, DirEntry, Padded, FindFile;
    VolumeBlocks(chain, size, content, name, ext);
    var d := DiskOf(VolumeOf(chain, size, content, name, ext));
    EntryFields(name, ext, size, d[2]);
    RootFinds(d, Padded(name, 8) + Padded(ext, 3), size);
  }

  lemma RootFinds(d: Disk, padded: seq<Byte>, size: nat)
    requires 2 in d && |padded| == 11 && d[2][..11] == padded
    requires Le16(d[2], 26) == 2 && Le32(d[2], 28) == size && d[2][32] == 0
    ensures FindFile(TOY, d, padded) == Some((2, size)) <==> padded[0] != 0 && padded[0] != 0xE5
  {
    hide Le16, Le32;
    var root := d[2];
    assert root[0..11] == padded && root[0] == padded[0];
    assert FindFrom(root, padded, 16, 1).Nowhere?;
  }

  /** The whole way round: a file of at most one block, built into an image and laid on a
      card, is mounted, found under its name and read back whole. */
  lemma FileComesBack(content: seq<Byte>, name: seq<Byte>, ext: seq<Byte>, result: ChainResult, bytes: seq<Byte>)
    requires |content| <= 512 && |name| <= 8 && |ext| <= 3 && (name != [] ==> name[0] != 0 && name[0] != 0xE5)
    requires Outcome(TOY, DiskOf(BuildWithFile(content, name, ext)), 2, |content|, result, bytes)
    ensures var d := DiskOf(BuildWithFile(content, name, ext));
            && MountVolume(d) == Some(TOY)
            && FindFile(TOY, d, Padded(name, 8) + Padded(ext, 3)) == Some((2, |content|))
            && result == Complete && bytes == content
  {
    var chain := [FatLink(2, 0xFFF)];
    VolumeMounts(chain, |content|, content, name, ext);
    VolumeFinds(chain, |content|, content, name, ext);
    VolumeBlocks(chain, |content|, content, name, ext);
    hide VolumeOf, DiskOf, FindFile, MountVolume, FatSector, DirEntry, Padded, Link, Repeated;
    var d := DiskOf(BuildWithFile(content, name, ext));
    assert Good(TOY, d, 2, 0);
    var n := Needed(|content|);
    assert n <= 1 && (n == 0 <==> content == []);
    assert AllGood(TOY, d, 2, n);
    if n == 1 {
      assert BytesOf(TOY, d, 2, 1) == BytesOf(TOY, d, 2, 0) + d[3];
    }
  }

  // --- The volumes that are broken on purpose ------------------------------

  lemma StopsOnce(v: Volume, d: Disk, first: nat, want: nat, n: nat, result: ChainResult, bytes: seq<Byte>)
    requires StoppedAt(v, d, first, want, n) && Outcome(v, d, first, want, result, bytes)
    ensures result == Stops(v, d, first, n) && bytes == BytesOf(v, d, first, n)
  {
    var i :| StoppedAt(v, d, first, want, i) && result == Stops(v, d, first, i) && bytes == BytesOf(v, d, first, i);
    assert i == n;
  }

  /** The second cluster of a volume whose first links to `next`. */
  lemma FirstLink(chain: seq<FatLink>, size: nat, content: seq<Byte>, name: seq<Byte>, ext: seq<Byte>, next: nat)
    requires Fits(chain) && |content| <= 512 && |name| <= 8 && |ext| <= 3 && next < 4096 && NextOf(chain, 2, 0) == next
    ensures var d := DiskOf(VolumeOf(chain, size, content, name, ext));
            && AllGood(TOY, d, 2, 1) && BytesOf(TOY, d, 2, 1) == d[3] && d[3][..|content|] == content
            && TOY.reserved in d && FatEntry(d[TOY.reserved], 3) == NextOf(chain, 3, 0)
            && Link(TOY, d, 2, 1) == if next >= END_OF_CHAIN then None else Some(next)
  {
    VolumeBlocks(chain, size, content, name, ext);
    FatSectorReadsBack(chain, 2);
    FatSectorReadsBack(chain, 3);
    hide VolumeOf, DiskOf, FatSector, NextOf, FatEntry;
    var d := DiskOf(VolumeOf(chain, size, content, name, ext));
    assert Good(TOY, d, 2, 0);
    assert BytesOf(TOY, d, 2, 1) == BytesOf(TOY, d, 2, 0) + d[3];
    assert BytesOf(TOY, d, 2, 1) == d[3];
  }

  /** A chain of one cluster for a size of four: Short, with one block. */
  lemma SizeMismatchReadsShort(content: seq<Byte>, name: seq<Byte>, ext: seq<Byte>, result: ChainResult,
                              bytes: seq<Byte>)
    requires |content| <= 512 && |name| <= 8 && |ext| <= 3
    requires Outcome(TOY, DiskOf(VolumeOf([FatLink(2, 0xFFF)], 2048, content, name, ext)), 2, 2048, result, bytes)
    ensures result == Short && |bytes| == 512 && bytes[..|content|] == content
  {
    FirstLink([FatLink(2, 0xFFF)], 2048, content, name, ext, 0xFFF);
    hide VolumeOf, DiskOf, FatEntry, BytesOf;
    var d := DiskOf(VolumeOf([FatLink(2, 0xFFF)], 2048, content, name, ext));
    assert !Good(TOY, d, 2, 1);
    assert Needed(2048) == 4;
    assert StoppedAt(TOY, d, 2, 2048, 1);
    StopsOnce(TOY, d, 2, 2048, 1, result, bytes);
  }

  /** A chain that leads off the volume: OutOfRange. */
  lemma OutOfRangeIsSaid(content: seq<Byte>, name: seq<Byte>, ext: seq<Byte>, result: ChainResult, bytes: seq<Byte>)
    requires |content| <= 512 && |name| <= 8 && |ext| <= 3
    requires Outcome(TOY, DiskOf(VolumeOf([FatLink(2, 200)], 1024, content, name, ext)), 2, 1024, result, bytes)
    ensures result == OutOfRange && |bytes| == 512
  {
    FirstLink([FatLink(2, 200)], 1024, content, name, ext, 200);
    hide VolumeOf, DiskOf, FatEntry, BytesOf;
    var d := DiskOf(VolumeOf([FatLink(2, 200)], 1024, content, name, ext));
    assert !Good(TOY, d, 2, 1);
    assert Needed(1024) == 2;
    assert StoppedAt(TOY, d, 2, 1024, 1);
    StopsOnce(TOY, d, 2, 1024, 1, result, bytes);
  }

  /** A chain that comes back to where it was: Looped, after each of its two clusters has
      been read once. */
  lemma CircularIsSeen(content: seq<Byte>, name: seq<Byte>, ext: seq<Byte>, result: ChainResult, bytes: seq<Byte>)
    requires |content| <= 512 && |name| <= 8 && |ext| <= 3
    requires Outcome(TOY, DiskOf(VolumeOf([FatLink(2, 3), FatLink(3, 2)], 2048, content, name, ext)), 2, 2048,
                     result, bytes)
    ensures result == Looped && |bytes| == 1024
  {
    var chain := [FatLink(2, 3), FatLink(3, 2)];
    assert chain[1..] == [FatLink(3, 2)];
    assert NextOf(chain, 2, 0) == 3 && NextOf(chain, 3, 0) == 2;
    FirstLink(chain, 2048, content, name, ext, 3);
    VolumeBlocks(chain, 2048, content, name, ext);
    hide VolumeOf, DiskOf, FatEntry, BytesOf, FatSector, DirEntry, BootSector, NextOf, Outcome;
    RoundAndRound(DiskOf(VolumeOf(chain, 2048, content, name, ext)), result, bytes);
  }

  /** Any disk of that geometry whose clusters 2 and 3 name each other. */
  lemma RoundAndRound(d: Disk, result: ChainResult, bytes: seq<Byte>)
    requires 1 in d && 3 in d && 4 in d && FatEntry(d[1], 3) == 2
    requires AllGood(TOY, d, 2, 1) && Link(TOY, d, 2, 1) == Some(3) && Outcome(TOY, d, 2, 2048, result, bytes)
    ensures result == Looped && |bytes| == 1024
  {
    hide FatEntry, BytesOf, Outcome;
    assert Good(TOY, d, 2, 1);
    assert Link(TOY, d, 2, 2) == Some(2) && Link(TOY, d, 2, 0) == Some(2);
    assert Repeated(TOY, d, 2, 2) && !Good(TOY, d, 2, 2);
    assert Needed(2048) == 4;
    assert AllGood(TOY, d, 2, 2);
    assert StoppedAt(TOY, d, 2, 2048, 2);
    StopsOnce(TOY, d, 2, 2048, 2, result, bytes);
  }

  /** A sound volume like these, but with clusters of two sectors: a file of two blocks
      has one cluster, and the reader calls it short after half of it. */
  lemma TwoSectorClusters(d: Disk, result: ChainResult, bytes: seq<Byte>)
    requires 1 in d && d[1] == FatSector([FatLink(2, 0xFFF)]) && 3 in d && 4 in d
    requires Outcome(TOY.(sectorsPerCluster := 2), d, 2, 1024, result, bytes)
    ensures RightSector(TOY.(sectorsPerCluster := 2), d, 2, 0) && !RightSector(TOY.(sectorsPerCluster := 2), d, 2, 1)
    ensures result == Short && bytes == d[3]
  {
    hide FatSector, FatEntry, Outcome, AllGood;
    var v := TOY.(sectorsPerCluster := 2);
    FatSectorReadsBack([FatLink(2, 0xFFF)], 2);
    assert Link(v, d, 2, 0) == Some(2) && Link(v, d, 2, 1).None?;
    assert Needed(1024) == 2 && ClustersFor(v, 2) == 1;
    OneGood(v, d);
    SoundFileReadsShort(v, d, 2, 1024, result, bytes);
    SecondIsWrong(v, d, 2);
  }

  lemma OneGood(v: Volume, d: Disk)
    requires v == TOY.(sectorsPerCluster := 2) && 3 in d
    ensures AllGood(v, d, 2, 1) && BytesOf(v, d, 2, 1) == d[3]
  {
    assert Good(v, d, 2, 0);
    assert BytesOf(v, d, 2, 1) == BytesOf(v, d, 2, 0) + d[3];
  }

  /** What keeps an image from being mounted: its signature, a sector size other than a
      block, or a count that must not be zero. */
  lemma BadBootsDoNotMount(image: seq<Byte>)
    requires |image| == SIZE
    ensures MountVolume(DiskOf(image)).None? <==>
            image[510..512] != [0x55, 0xAA] || Le16(image, 11) != BLOCK || image[13] == 0 || image[16] == 0
  {
    var boot := DiskOf(image)[0];
    assert boot == image[0..512] && image[510..512] == [image[510], image[511]];
    assert Le16(boot, 11) == Le16(image, 11);
  }

  // --- Images stored as their runs -----------------------------------------

  datatype Run = Run(offset: nat, bytes: seq<Byte>)

  predicate Covers(r: Run, i: int) {
    r.offset <= i < r.offset + |r.bytes|
  }

  predicate Blank(image: seq<Byte>, lo: int, hi: int) {
    forall i :: lo <= i < hi && 0 <= i < |image| ==> image[i] == 0
  }

  /** Eight zeros in a row, the end of the image counting as zeros. */
  predicate WideGap(image: seq<Byte>, k: int) {
    Blank(image, k, k + 8)
  }

  /** A stretch of the image, from one non-zero byte to another, with no eight zeros in a
      row between them. */
  predicate RunOf(image: seq<Byte>, r: Run) {
    var end := r.offset + |r.bytes|;
    && r.bytes != [] && end <= |image| && r.bytes == image[r.offset..end]
    && image[r.offset] != 0 && image[end - 1] != 0
    && forall k :: r.offset <= k <= end - 8 ==> !WideGap(image, k)
  }

  predicate Covered(runs: seq<Run>, i: int) {
    exists k :: 0 <= k < |runs| && Covers(runs[k], i)
  }

  /** The runs of an image: stretches of it, in order, at least eight zeros apart, that
      leave only zeros out. */
  predicate RunsOf(image: seq<Byte>, runs: seq<Run>) {
    RunsTo(image, runs, |image|)
  }

  predicate RunsTo(image: seq<Byte>, runs: seq<Run>, end: nat) {
    && (forall k :: 0 <= k < |runs| ==> RunOf(image, runs[k]) && runs[k].offset + |runs[k].bytes| <= end)
    && (forall k :: 0 <= k < |runs| - 1 ==> runs[k].offset + |runs[k].bytes| + 8 <= runs[k + 1].offset)
    && (forall i :: 0 <= i < end && i < |image| && image[i] != 0 ==> Covered(runs, i))
  }

  /** Where the last run ends. */
  function EndOf(runs: seq<Run>): nat {
    if runs == [] then 0 else runs[|runs| - 1].offset + |runs[|runs| - 1].bytes|
  }

  /** The nested loops that find them. */
  method Runs(image: seq<Byte>) returns (out: seq<Run>)
    ensures RunsOf(image, out)
  {
    hide RunsTo, RunOf;
    out := [];
    var i := 0;
    NoRuns(image);
    while i < |image|
      invariant 0 <= i <= |image| && RunsTo(image, out, i)
      invariant out != [] ==> EndOf(out) <= i && WideGap(image, EndOf(out)) && Blank(image, EndOf(out), i)
      decreases |image| - i
    {
      if image[i] == 0 {
        SkipZero(image, out, i);
        i := i + 1;
        continue;
      }
      var j := ScanRun(image, i);
      AddRun(image, out, i, j);
      out := out + [Run(i, image[i..j])];
      i := j;
    }
  }

  lemma NoRuns(image: seq<Byte>)
    ensures RunsTo(image, [], 0)
  {
  }

  /** One run from a non-zero byte: on to eight zeros in a row or the end, then back over
      the zeros. */
  method ScanRun(image: seq<Byte>, i: nat) returns (j: nat)
    requires i < |image| && image[i] != 0
    ensures i < j <= |image| && RunOf(image, Run(i, image[i..j])) && WideGap(image, j)
  {
    j := i;
    var zeros := 0;
    while j < |image| && zeros < 8
      invariant i <= j <= |image| && 0 <= zeros <= 8 && (j > i ==> zeros < j - i) && (j == i ==> zeros == 0)
      invariant Blank(image, j - zeros, j) && (j > i ==> image[j - zeros - 1] != 0)
      invariant forall k :: i <= k && k + 8 <= j && k < j - zeros ==> !WideGap(image, k)
    {
      ghost var last := j - zeros - 1;
      zeros := if image[j] == 0 then zeros + 1 else 0;
      j := j + 1;
    }
    ghost var far, tail := j, zeros;
    while j > i && image[j - 1] == 0
      invariant i < j <= far && far - tail <= j && Blank(image, j, far)
    {
      j := j - 1;
    }
    assert image[i..j][0] == image[i];
  }

  lemma SkipZero(image: seq<Byte>, out: seq<Run>, i: nat)
    requires i < |image| && image[i] == 0 && RunsTo(image, out, i)
    ensures RunsTo(image, out, i + 1)
  {
    hide RunOf;
  }

  lemma AddRun(image: seq<Byte>, out: seq<Run>, i: nat, j: nat)
    requires i < j <= |image| && image[i] != 0 && RunsTo(image, out, i) && RunOf(image, Run(i, image[i..j]))
    requires out != [] ==> EndOf(out) <= i && WideGap(image, EndOf(out)) && Blank(image, EndOf(out), i)
    ensures RunsTo(image, out + [Run(i, image[i..j])], j)
  {
    hide RunOf;
    var more := out + [Run(i, image[i..j])];
    assert out != [] ==> EndOf(out) + 8 <= i;
    forall h | 0 <= h < j && image[h] != 0
      ensures Covered(more, h)
    {
      if h < i {
        var k :| 0 <= k < |out| && Covers(out[k], h);
        assert Covers(more[k], h);
      } else {
        assert Covers(more[|out|], h);
      }
    }
  }

  // --- Loading -------------------------------------------------------------

  predicate AllFit(runs: seq<Run>) {
    forall k :: 0 <= k < |runs| ==> runs[k].offset + |runs[k].bytes| <= SIZE
  }

  /** The runs laid over what is there, one after the other. */
  function Laid(store: seq<Byte>, runs: seq<Run>): (r: seq<Byte>)
    requires |store| == SIZE && AllFit(runs)
    ensures |r| == SIZE
    decreases |runs|
  {
    if runs == [] then store
    else Put(Laid(store, runs[..|runs| - 1]), runs[|runs| - 1].offset, runs[|runs| - 1].bytes)
  }

  lemma CoveredSnoc(runs: seq<Run>, i: int)
    requires runs != []
    ensures Covered(runs, i) <==> Covered(runs[..|runs| - 1], i) || Covers(runs[|runs| - 1], i)
  {
    hide Covers;
    var n := |runs| - 1;
    if Covered(runs[..n], i) {
      var k :| 0 <= k < n && Covers(runs[..n][k], i);
      assert Covers(runs[k], i);
    }
    if Covered(runs, i) {
      var k :| 0 <= k < |runs| && Covers(runs[k], i);
      assert k == n || Covers(runs[..n][k], i);
    }
  }

  lemma {:induction false} LaidIsImage(image: seq<Byte>, runs: seq<Run>, i: nat)
    requires |image| == SIZE && AllFit(runs) && forall k :: 0 <= k < |runs| ==> RunOf(image, runs[k])
    requires i < SIZE
    ensures Laid(Zeros(SIZE), runs)[i] == if Covered(runs, i) then image[i] else 0
    decreases |runs|
  {
    hide Covered, WideGap;
    if runs != [] {
      var n := |runs| - 1;
      LaidIsImage(image, runs[..n], i);
      CoveredSnoc(runs, i);
      if Covers(runs[n], i) {
        assert runs[n].bytes[i - runs[n].offset] == image[i];
      }
    } else {
      NoneCovered(i);
    }
  }

  lemma NoneCovered(i: int)
    ensures !Covered([], i)
  {
  }

  /** Storing an image as its runs and laying them on a blank card gives the image back,
      whatever it holds. */
  lemma RunsLoadBack(image: seq<Byte>, runs: seq<Run>)
    requires |image| == SIZE && RunsOf(image, runs)
    ensures AllFit(runs) && Laid(Zeros(SIZE), runs) == image
  {
    hide Laid, Covered;
    forall i | 0 <= i < SIZE
      ensures Laid(Zeros(SIZE), runs)[i] == image[i]
    {
      LaidIsImage(image, runs, i);
    }
  }
}
