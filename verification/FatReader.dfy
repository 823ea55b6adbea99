/** A FAT12 reader over numbered blocks, and what it makes of any volume, sound or not. */
module FatReader {
  import opened Wrappers

  const BLOCK: nat := 512
  const MAX_CLUSTERS: nat := 64
  const END_OF_CHAIN: nat := 0xFF8

  type Block = s: seq<Byte> | |s| == 512 witness seq(512, i => 0)

  /** The card: the blocks it will give up. */
  type Disk = map<nat, Block>

  datatype Volume = Volume(bytesPerSector: nat, sectorsPerCluster: nat, reserved: nat, fatCount: nat,
                           rootEntries: nat, fatSectors: nat, rootSector: nat, dataSector: nat, totalSectors: nat)

  datatype ChainResult = Complete | Looped | OutOfRange | Short | Unreadable

  function Le16(s: seq<Byte>, at: nat): (r: nat)
    requires at + 2 <= |s|
    ensures r < 0x10000
  {
    s[at] as int + 256 * (s[at + 1] as int)
  }

  function Le32(s: seq<Byte>, at: nat): nat
    requires at + 4 <= |s|
  {
    s[at] as int + 256 * (s[at + 1] as int) + 0x10000 * (s[at + 2] as int) + 0x1000000 * (s[at + 3] as int)
  }

  function MountVolume(d: Disk): Option<Volume> {
    if 0 !in d then None
    else
      var s := d[0];
      if s[510] != 0x55 || s[511] != 0xAA then None
      else
        var bps, spc, reserved, fats := Le16(s, 11), s[13], Le16(s, 14), s[16];
        var roots, fatSectors := Le16(s, 17), Le16(s, 22);
        if bps != BLOCK || spc == 0 || fats == 0 then None
        else
          var root := reserved + fats * fatSectors;
          Some(Volume(bps, spc, reserved, fats, roots, fatSectors, root, root + roots * 32 / bps, Le16(s, 19)))
  }

  /** The first data sector where the FAT puts it: root directory sectors rounded up. */
  function FirstDataSector(v: Volume): nat
    requires v.bytesPerSector > 0
  {
    v.reserved + v.fatCount * v.fatSectors + (v.rootEntries * 32 + v.bytesPerSector - 1) / v.bytesPerSector
  }

  /** The reader rounds the root directory down, so it finds the data exactly where the
      root entries fill whole sectors. */
  lemma DataSectorAgrees(d: Disk)
    requires MountVolume(d).Some?
    ensures var v := MountVolume(d).value;
            && v.bytesPerSector == BLOCK && v.sectorsPerCluster > 0 && v.fatCount > 0
            && (v.dataSector == FirstDataSector(v) <==> v.rootEntries % 16 == 0)
  {
    RoundedUp(MountVolume(d).value.rootEntries);
    hide Le16;
  }

  lemma RoundedUp(n: nat)
    ensures n * 32 / 512 == (n * 32 + 511) / 512 <==> n % 16 == 0
  {
    var q, r := n / 16, n % 16;
    assert n * 32 == 512 * q + 32 * r;
    assert n * 32 / 512 == q;
    assert (n * 32 + 511) / 512 == if r == 0 then q else q + 1;
  }

  /** An entry in use under this name. */
  predicate Names(root: Block, name: seq<Byte>, i: nat)
    requires i < 16
  {
    root[i * 32] != 0 && root[i * 32] != 0xE5 && root[i * 32..i * 32 + 11] == name
  }

  /** Where a search of the directory ends: at an entry, nowhere, or past the one block
      that was read. */
  datatype Search = At(i: nat) | Nowhere | PastBlock

  /** The directory entries from the i-th on, up to the first never-used one. */
  function FindFrom(root: Block, name: seq<Byte>, entries: nat, i: nat): (r: Search)
    requires |name| == 11 && i <= entries && i <= 16
    ensures r.At? ==> i <= r.i < entries && r.i < 16
    ensures entries <= 16 ==> !r.PastBlock?
    decreases entries - i
  {
    if i == entries then Nowhere
    else if i == 16 then PastBlock
    else if root[i * 32] == 0 then Nowhere
    else if root[i * 32] != 0xE5 && root[i * 32..i * 32 + 11] == name then At(i)
    else FindFrom(root, name, entries, i + 1)
  }

  /** The first entry of that name that no never-used entry comes before. */
  lemma {:induction false} FindsFirst(root: Block, name: seq<Byte>, entries: nat, i: nat, k: nat)
    requires |name| == 11 && i <= k < entries && k < 16
    ensures FindFrom(root, name, entries, i) == At(k) <==>
            Names(root, name, k) && forall j :: i <= j < k ==> root[j * 32] != 0 && !Names(root, name, j)
    decreases entries - i
  {
    if root[i * 32] != 0 && i < k && !Names(root, name, i) {
      FindsFirst(root, name, entries, i + 1, k);
    }
  }

  /** The search runs past its one block exactly when the directory has more entries than
      the block holds, and none of those is never-used or the one looked for. */
  lemma {:induction false} PastExactly(root: Block, name: seq<Byte>, entries: nat, i: nat)
    requires |name| == 11 && i <= entries && i <= 16
    ensures FindFrom(root, name, entries, i) == PastBlock <==>
            entries > 16 && forall j :: i <= j < 16 ==> root[j * 32] != 0 && !Names(root, name, j)
    decreases entries - i
  {
    if i < entries && i < 16 {
      PastExactly(root, name, entries, i + 1);
    }
  }

  /** The search stays in the block that was read. */
  predicate Inside(v: Volume, d: Disk, name: seq<Byte>)
    requires |name| == 11
  {
    v.rootSector in d ==> FindFrom(d[v.rootSector], name, v.rootEntries, 0) != PastBlock
  }

  function FindFile(v: Volume, d: Disk, name: seq<Byte>): Option<(nat, nat)>
    requires |name| == 11 && Inside(v, d, name)
  {
    if v.rootSector !in d then None
    else
      var root := d[v.rootSector];
      match FindFrom(root, name, v.rootEntries, 0)
      case At(i) => Some((Le16(root, i * 32 + 26), Le32(root, i * 32 + 28)))
      case _ => None
  }

  /** The searching loop. */
  method Find(v: Volume, d: Disk, name: seq<Byte>) returns (r: Option<(nat, nat)>)
    requires |name| == 11 && Inside(v, d, name)
    ensures r == FindFile(v, d, name)
  {
    if v.rootSector !in d {
      return None;
    }
    var scratch := d[v.rootSector];
    var i := 0;
    while i < v.rootEntries
      invariant 0 <= i <= v.rootEntries && i <= 16
      invariant FindFrom(scratch, name, v.rootEntries, i) == FindFrom(scratch, name, v.rootEntries, 0)
    {
      var e := scratch[i * 32..i * 32 + 32];
      assert e[..11] == scratch[i * 32..i * 32 + 11];
      if e[0] == 0 {
        break;
      }
      if e[0] == 0xE5 || e[..11] != name {
        i := i + 1;
        continue;
      }
      return Some((Le16(e, 26), Le32(e, 28)));
    }
    return None;
  }

  /** One twelve-bit entry: two share three bytes. */
  function FatEntry(fat: Block, cluster: nat): (r: nat)
    requires cluster <= 340
    ensures r < 4096
  {
    var at := cluster * 3 / 2;
    if cluster % 2 == 0 then fat[at] as int + 256 * (fat[at + 1] as int % 16)
    else fat[at] as int / 16 + 16 * (fat[at + 1] as int)
  }

  predicate Mounted(v: Volume) {
    v.bytesPerSector == BLOCK && v.sectorsPerCluster >= 1
  }

  // --- The chain, stated without a loop ------------------------------------

  function SectorOf(v: Volume, cluster: nat): nat
    requires cluster >= 2
  {
    v.dataSector + (cluster - 2) * v.sectorsPerCluster
  }

  /** The i-th cluster of the chain: where the links lead while they can be read and do
      not say that the chain has ended. */
  function Link(v: Volume, d: Disk, first: nat, i: nat): Option<nat> {
    if i == 0 then Some(first)
    else
      var before := Link(v, d, first, i - 1);
      if before.None? || !InVolume(v, before.value) || v.reserved !in d then None
      else
        var next := FatEntry(d[v.reserved], before.value);
        if next >= END_OF_CHAIN then None else Some(next)
  }

  predicate InVolume(v: Volume, cluster: nat) {
    2 <= cluster < MAX_CLUSTERS && SectorOf(v, cluster) < v.totalSectors
  }

  predicate Repeated(v: Volume, d: Disk, first: nat, i: nat) {
    exists j :: 0 <= j < i && Link(v, d, first, j) == Link(v, d, first, i)
  }

  /** The i-th cluster is there, new, and readable. */
  predicate Good(v: Volume, d: Disk, first: nat, i: nat) {
    var c := Link(v, d, first, i);
    c.Some? && InVolume(v, c.value) && !Repeated(v, d, first, i) && SectorOf(v, c.value) in d
  }

  predicate AllGood(v: Volume, d: Disk, first: nat, n: nat) {
    forall i :: 0 <= i < n ==> Good(v, d, first, i)
  }

  /** What stops the reader at the i-th cluster, the ones before it being good. */
  function Stops(v: Volume, d: Disk, first: nat, i: nat): ChainResult
  {
    var c := Link(v, d, first, i);
    if c.None? then (if v.reserved !in d then Unreadable else Short)
    else if c.value < 2 || c.value >= MAX_CLUSTERS then OutOfRange
    else if Repeated(v, d, first, i) then Looped
    else if !InVolume(v, c.value) then OutOfRange
    else Unreadable
  }

  /** The blocks of the first n clusters, end to end. */
  function BytesOf(v: Volume, d: Disk, first: nat, n: nat): (r: seq<Byte>)
    requires AllGood(v, d, first, n)
    ensures |r| == BLOCK * n
  {
    if n == 0 then []
    else
      assert Good(v, d, first, n - 1);
      BytesOf(v, d, first, n - 1) + d[SectorOf(v, Link(v, d, first, n - 1).value)]
  }

  /** How many clusters a size needs. */
  function Needed(want: nat): nat {
    (want + BLOCK - 1) / BLOCK
  }

  /** The reader's outcome: complete with the bytes exactly when every cluster needed is
      good; otherwise what stopped it first, with the bytes before that. */
  ghost predicate Outcome(v: Volume, d: Disk, first: nat, want: nat, result: ChainResult, bytes: seq<Byte>) {
    && (AllGood(v, d, first, Needed(want)) ==>
          result == Complete && |BytesOf(v, d, first, Needed(want))| >= want
          && bytes == BytesOf(v, d, first, Needed(want))[..want])
    && (!AllGood(v, d, first, Needed(want)) ==>
          result != Complete
          && exists i ::
               StoppedAt(v, d, first, want, i) && result == Stops(v, d, first, i) && bytes == BytesOf(v, d, first, i))
  }

  ghost predicate StoppedAt(v: Volume, d: Disk, first: nat, want: nat, i: int) {
    0 <= i < Needed(want) && AllGood(v, d, first, i) && !Good(v, d, first, i)
  }

  // --- The loop ------------------------------------------------------------

  lemma NeededSteps(want: nat, n: nat)
    ensures BLOCK * n < want <==> n < Needed(want)
  {
  }

  lemma NextLink(v: Volume, d: Disk, first: nat, i: nat)
    requires Good(v, d, first, i)
    ensures v.reserved !in d ==> Link(v, d, first, i + 1).None? && Stops(v, d, first, i + 1) == Unreadable
    ensures v.reserved in d ==>
              && Link(v, d, first, i).value <= 340
              && var next := FatEntry(d[v.reserved], Link(v, d, first, i).value);
                 && Link(v, d, first, i + 1) == (if next >= END_OF_CHAIN then None else Some(next))
                 && (next >= END_OF_CHAIN ==> Stops(v, d, first, i + 1) == Short)
    ensures Link(v, d, first, i + 1).None? ==> !Good(v, d, first, i + 1)
  {
  }

  /** What the checks on a cluster say, in the order they are made. */
  lemma Checked(v: Volume, d: Disk, first: nat, n: nat, cluster: nat)
    requires Link(v, d, first, n) == Some(cluster)
    ensures Good(v, d, first, n) <==>
            2 <= cluster < MAX_CLUSTERS && !Repeated(v, d, first, n)
            && SectorOf(v, cluster) < v.totalSectors && SectorOf(v, cluster) in d
    ensures Stops(v, d, first, n) ==
            if cluster < 2 || cluster >= MAX_CLUSTERS then OutOfRange
            else if Repeated(v, d, first, n) then Looped
            else if SectorOf(v, cluster) >= v.totalSectors then OutOfRange
            else Unreadable
  {
  }

  /** The clusters marked as seen. */
  ghost predicate Marks(seen: seq<bool>, v: Volume, d: Disk, first: nat, n: nat) {
    && |seen| == MAX_CLUSTERS
    && forall c :: 0 <= c < MAX_CLUSTERS ==> (seen[c] <==> exists j :: 0 <= j < n && Link(v, d, first, j) == Some(c))
  }

  lemma MarkMore(seen: seq<bool>, v: Volume, d: Disk, first: nat, n: nat, cluster: nat)
    requires Marks(seen, v, d, first, n) && cluster < MAX_CLUSTERS && Link(v, d, first, n) == Some(cluster)
    ensures seen[cluster] <==> Repeated(v, d, first, n)
    ensures Marks(seen[cluster := true], v, d, first, n + 1)
  {
    hide Link;
  }

  lemma OneMoreGood(v: Volume, d: Disk, first: nat, n: nat)
    requires AllGood(v, d, first, n) && Good(v, d, first, n)
    ensures AllGood(v, d, first, n + 1) && Link(v, d, first, n).Some? && Link(v, d, first, n).value >= 2
    ensures SectorOf(v, Link(v, d, first, n).value) in d
    ensures BytesOf(v, d, first, n + 1) == BytesOf(v, d, first, n) + d[SectorOf(v, Link(v, d, first, n).value)]
  {
  }

  lemma NothingRead(v: Volume, d: Disk, first: nat)
    ensures Link(v, d, first, 0) == Some(first) && AllGood(v, d, first, 0) && BytesOf(v, d, first, 0) == []
  {
  }

  /** The reading loop: block after block along the links, until enough has been copied. */
  method ReadChain(v: Volume, d: Disk, first: nat, want: nat, out: array<Byte>) returns (result: ChainResult, got: nat)
    requires Mounted(v) && first < 0x10000 && want <= out.Length
    modifies out
    ensures got <= want && Outcome(v, d, first, want, result, out[..got])
  {
    hide Link, Good, AllGood, Stops, Repeated, BytesOf, Marks;
    var seen := new bool[MAX_CLUSTERS](i => false);
    got := 0;
    var cluster := first;
    ghost var n := 0;
    NothingRead(v, d, first);
    assert Marks(seen[..], v, d, first, 0) by {
      NoMarks(seen[..], v, d, first);
    }
    while got < want
      invariant AllGood(v, d, first, n) && Link(v, d, first, n) == Some(cluster)
      invariant got == BLOCK * n <= want && out[..got] == BytesOf(v, d, first, n)
      invariant Marks(seen[..], v, d, first, n)
      decreases want - got
    {
      NeededSteps(want, n);
      Checked(v, d, first, n, cluster);
      if cluster < 2 || cluster >= MAX_CLUSTERS {
        StopHere(v, d, first, want, n, out[..got]);
        return OutOfRange, got;
      }
      MarkMore(seen[..], v, d, first, n, cluster);
      if seen[cluster] {
        StopHere(v, d, first, want, n, out[..got]);
        return Looped, got;
      }
      ghost var marks := seen[..];
      seen[cluster] := true;
      assert seen[..] == marks[cluster := true];
      var sector := v.dataSector + (cluster - 2) * v.sectorsPerCluster;
      if sector >= v.totalSectors {
        StopHere(v, d, first, want, n, out[..got]);
        return OutOfRange, got;
      }
      if sector !in d {
        StopHere(v, d, first, want, n, out[..got]);
        return Unreadable, got;
      }
      OneMoreGood(v, d, first, n);
      var take := want - got;
      if take > v.bytesPerSector {
        take := v.bytesPerSector;
      }
      CopyInto(out, got, d[sector], take);
      got := got + take;
      NeededSteps(want, n + 1);
      if got >= want {
        LastBlock(v, d, first, want, n, d[sector], out[..got]);
        return Complete, got;
      }
      NextLink(v, d, first, n);
      var next, readable := NextOf(v, d, cluster);
      if !readable {
        StopHere(v, d, first, want, n + 1, out[..got]);
        return Unreadable, got;
      }
      if next >= END_OF_CHAIN {
        StopHere(v, d, first, want, n + 1, out[..got]);
        return Short, got;
      }
      cluster := next;
      n := n + 1;
    }
    NothingWanted(v, d, first, want, out[..got]);
    return Complete, got;
  }

  /** The next link, from the entry's two bytes. */
  method NextOf(v: Volume, d: Disk, cluster: nat) returns (next: nat, readable: bool)
    requires Mounted(v) && cluster < MAX_CLUSTERS
    ensures readable == (v.reserved in d) && (readable ==> next == FatEntry(d[v.reserved], cluster))
  {
    var entry := cluster * 3 / 2;
    if v.reserved + entry / v.bytesPerSector !in d {
      return 0, false;
    }
    var scratch := d[v.reserved + entry / v.bytesPerSector];
    var at := entry % v.bytesPerSector;
    readable := true;
    if cluster % 2 == 0 {
      next := scratch[at] as int + 256 * (scratch[at + 1] as int % 16);
    } else {
      next := scratch[at] as int / 16 + 16 * (scratch[at + 1] as int);
    }
  }

  lemma NoMarks(seen: seq<bool>, v: Volume, d: Disk, first: nat)
    requires |seen| == MAX_CLUSTERS && forall c :: 0 <= c < MAX_CLUSTERS ==> !seen[c]
    ensures Marks(seen, v, d, first, 0)
  {
  }

  lemma NothingWanted(v: Volume, d: Disk, first: nat, want: nat, bytes: seq<Byte>)
    requires |bytes| == want
    requires want == 0 || (want % BLOCK == 0 && AllGood(v, d, first, want / BLOCK)
                           && bytes == BytesOf(v, d, first, want / BLOCK))
    ensures Outcome(v, d, first, want, Complete, bytes)
  {
    if want == 0 {
      assert Needed(want) == 0;
    } else {
      assert Needed(want) == want / BLOCK;
    }
  }

  lemma LastBlock(v: Volume, d: Disk, first: nat, want: nat, n: nat, block: Block, bytes: seq<Byte>)
    requires AllGood(v, d, first, n) && AllGood(v, d, first, n + 1) && BLOCK * n < want <= BLOCK * (n + 1)
    requires BytesOf(v, d, first, n + 1) == BytesOf(v, d, first, n) + block
    requires bytes == BytesOf(v, d, first, n) + block[..want - BLOCK * n]
    ensures Outcome(v, d, first, want, Complete, bytes)
  {
    assert Needed(want) == n + 1;
    assert bytes == BytesOf(v, d, first, n + 1)[..want];
  }

  method CopyInto(out: array<Byte>, at: nat, from: Block, take: nat)
    requires at + take <= out.Length && take <= BLOCK
    modifies out
    ensures out[..at + take] == old(out[..at]) + from[..take]
  {
    var i := 0;
    while i < take
      invariant 0 <= i <= take && out[..at + i] == old(out[..at]) + from[..i]
    {
      out[at + i] := from[i];
      i := i + 1;
    }
  }

  lemma StopHere(v: Volume, d: Disk, first: nat, want: nat, n: nat, bytes: seq<Byte>)
    requires n < Needed(want) && AllGood(v, d, first, n) && !Good(v, d, first, n) && bytes == BytesOf(v, d, first, n)
    ensures Outcome(v, d, first, want, Stops(v, d, first, n), bytes)
  {
    assert StoppedAt(v, d, first, want, n);
  }

  // --- Consequences --------------------------------------------------------

  /** A chain of good clusters is short: nothing longer than the 62 clusters this reader
      can name ever reads completely, whatever its links say. */
  lemma GoodChainsAreShort(v: Volume, d: Disk, first: nat, n: nat)
    requires AllGood(v, d, first, n)
    ensures n <= MAX_CLUSTERS - 2
  {
    var named := seq(n, i requires 0 <= i < n => ClusterAt(v, d, first, i));
    forall i | 0 <= i < n
      ensures 2 <= named[i] < MAX_CLUSTERS
    {
      assert Good(v, d, first, i);
    }
    forall i, j | 0 <= i < j < n
      ensures named[i] != named[j]
    {
      assert Good(v, d, first, i) && Good(v, d, first, j);
    }
    Pigeonhole(named, 2, MAX_CLUSTERS);
  }

  function ClusterAt(v: Volume, d: Disk, first: nat, i: nat): nat {
    if Link(v, d, first, i).Some? then Link(v, d, first, i).value else 0
  }

  /** The sector the reader takes for the j-th block of a file. */
  function SectorRead(v: Volume, d: Disk, first: nat, j: nat): nat
    requires ClusterAt(v, d, first, j) >= 2
  {
    SectorOf(v, ClusterAt(v, d, first, j))
  }

  /** Where the FAT says it is: a cluster's sectors follow one another. */
  function FileSector(v: Volume, d: Disk, first: nat, j: nat): nat
    requires Mounted(v) && ClusterAt(v, d, first, j / v.sectorsPerCluster) >= 2
  {
    SectorOf(v, ClusterAt(v, d, first, j / v.sectorsPerCluster)) + j % v.sectorsPerCluster
  }

  lemma GoodCluster(v: Volume, d: Disk, first: nat, n: nat, i: nat)
    requires AllGood(v, d, first, n) && i < n
    ensures ClusterAt(v, d, first, i) >= 2
  {
    assert Good(v, d, first, i);
  }

  /** The reader takes the j-th block from where the FAT says it is. */
  predicate RightSector(v: Volume, d: Disk, first: nat, j: nat)
    requires Mounted(v)
  {
    && ClusterAt(v, d, first, j) >= 2 && ClusterAt(v, d, first, j / v.sectorsPerCluster) >= 2
    && SectorRead(v, d, first, j) == FileSector(v, d, first, j)
  }

  /** The clusters that hold n blocks. */
  function ClustersFor(v: Volume, n: nat): nat
    requires Mounted(v)
  {
    (n + v.sectorsPerCluster - 1) / v.sectorsPerCluster
  }

  /** For a file of two blocks or more whose clusters are sound, the reader looks in the
      right sectors exactly when a cluster is one sector. */
  lemma OneSectorClustersOnly(v: Volume, d: Disk, first: nat, n: nat)
    requires Mounted(v) && AllGood(v, d, first, ClustersFor(v, n)) && n >= 2
    ensures (forall j :: 0 <= j < n ==> RightSector(v, d, first, j)) <==> v.sectorsPerCluster == 1
  {
    var spc := v.sectorsPerCluster;
    if spc == 1 {
      forall j | 0 <= j < n
        ensures RightSector(v, d, first, j)
      {
        GoodCluster(v, d, first, n, j);
        assert j / 1 == j && j % 1 == 0;
      }
    } else {
      SecondIsWrong(v, d, first);
    }
  }

  /** A sound file of two blocks or more in clusters of several sectors, its chain ending
      with the last cluster it needs: the reader takes one block of each and calls the
      file short. */
  lemma SoundFileReadsShort(v: Volume, d: Disk, first: nat, want: nat, result: ChainResult, bytes: seq<Byte>)
    requires Mounted(v) && v.sectorsPerCluster >= 2 && Needed(want) >= 2 && v.reserved in d
    requires var k := ClustersFor(v, Needed(want)); AllGood(v, d, first, k) && Link(v, d, first, k).None?
    requires Outcome(v, d, first, want, result, bytes)
    ensures result == Short && |bytes| == BLOCK * ClustersFor(v, Needed(want)) < want
    ensures bytes == BytesOf(v, d, first, ClustersFor(v, Needed(want)))
  {
    hide BytesOf, Link;
    var k := ClustersFor(v, Needed(want));
    FewerClusters(Needed(want), v.sectorsPerCluster);
    NeededSteps(want, k);
    assert StoppedAt(v, d, first, want, k);
    var i :| StoppedAt(v, d, first, want, i) && result == Stops(v, d, first, i) && bytes == BytesOf(v, d, first, i)
      by { assert !Good(v, d, first, k); }
    assert i == k;
  }

  lemma FewerClusters(n: nat, spc: nat)
    requires n >= 2 && spc >= 2
    ensures (n + spc - 1) / spc < n
  {
    var k := (n + spc - 1) / spc;
    MulMono(2, spc, n - 1);
    assert n * spc == spc * (n - 1) + spc >= n + spc;
    assert k * spc <= n + spc - 1 < n * spc;
    if k >= n {
      MulMono(n, k, spc);
      assert false;
    }
  }

  lemma SecondIsWrong(v: Volume, d: Disk, first: nat)
    requires v.bytesPerSector == BLOCK && v.sectorsPerCluster >= 2
    ensures !RightSector(v, d, first, 1)
  {
    hide ClusterAt;
    var spc := v.sectorsPerCluster;
    assert 1 / spc == 0 && 1 % spc == 1;
    var c0, c1 := ClusterAt(v, d, first, 0), ClusterAt(v, d, first, 1);
    if c0 >= 2 && c1 >= 2 {
      NoUnitMultiple(c1 - 2, c0 - 2, spc);
    }
  }

  lemma NoUnitMultiple(a: nat, b: nat, d: nat)
    requires d >= 2
    ensures a * d != b * d + 1
  {
    if a > b {
      MulMono(b + 1, a, d);
      assert (b + 1) * d == b * d + d;
    } else {
      MulMono(a, b, d);
    }
  }

  lemma {:induction false} MulMono(x: nat, y: nat, d: nat)
    requires x <= y
    ensures x * d <= y * d
    decreases y
  {
    if x < y {
      MulMono(x, y - 1, d);
      assert y * d == (y - 1) * d + d;
    }
  }

  lemma {:induction false} Pigeonhole(s: seq<nat>, lo: nat, hi: nat)
    requires lo <= hi && forall i :: 0 <= i < |s| ==> lo <= s[i] < hi
    requires forall i, j :: 0 <= i < j < |s| ==> s[i] != s[j]
    ensures |s| <= hi - lo
    decreases hi
  {
    if s != [] {
      if k :| 0 <= k < |s| && s[k] == hi - 1 {
        Pigeonhole(s[..k] + s[k + 1..], lo, hi - 1);
      } else {
        assert lo <= s[0] < hi - 1;
        Pigeonhole(s, lo, hi - 1);
      }
    }
  }

  lemma ReadsAreBounded(v: Volume, d: Disk, first: nat, want: nat, result: ChainResult, bytes: seq<Byte>)
    requires Outcome(v, d, first, want, result, bytes)
    ensures |bytes| <= BLOCK * (MAX_CLUSTERS - 2) && (result == Complete ==> |bytes| == want)
  {
    if AllGood(v, d, first, Needed(want)) {
      GoodChainsAreShort(v, d, first, Needed(want));
    } else {
      var i :| StoppedAt(v, d, first, want, i) && bytes == BytesOf(v, d, first, i);
      GoodChainsAreShort(v, d, first, i);
    }
  }
}
